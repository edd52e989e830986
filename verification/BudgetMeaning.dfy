/** What a tick, the end of a hold and the close of a period charge, told by the clock and by
    when each hold was last metered. */
module BudgetMeaning {
  import opened Clock
  import opened LockBudget
  import opened BudgetLaws
  import opened BudgetPeriods

  /** The whole seconds of each hold since it was last metered, in the order given. */
  function WholeSeconds(holdings: map<string, Holding>, order: seq<string>, until: int): seq<int> {
    if order == [] then []
    else
      (if order[0] in holdings && (until - holdings[order[0]].lastMeteredAt) / SECOND > 0
       then [(until - holdings[order[0]].lastMeteredAt) / SECOND] else [])
      + WholeSeconds(holdings, order[1..], until)
  }

  /** The holds that have not ended at `now`. */
  function Unexpired(holdings: map<string, Holding>, now: int): map<string, Holding> {
    map name | name in holdings && holdings[name].expiresAt > now :: holdings[name]
  }

  /** These holds are in `rt` as they are in `holdings`. */
  ghost predicate Agree(rt: Runtime, holdings: map<string, Holding>, names: seq<string>) {
    forall n | n in names :: (n in rt.holdings <==> n in holdings) && (n in holdings ==> rt.holdings[n] == holdings[n])
  }

  ghost predicate Distinct(names: seq<string>) {
    forall i, j | 0 <= i < j < |names| :: names[i] != names[j]
  }

  lemma OneWholeSeconds(holdings: map<string, Holding>, name: string, until: int)
    ensures WholeSeconds(holdings, [name], until)
            == if name in holdings && (until - holdings[name].lastMeteredAt) / SECOND > 0
               then [(until - holdings[name].lastMeteredAt) / SECOND] else []
  {
    assert [name][1..] == [];
    assert WholeSeconds(holdings, [name][1..], until) == [];
  }

  lemma NoWholeSeconds(holdings: map<string, Holding>, until: int)
    ensures WholeSeconds(holdings, [], until) == []
  {
  }

  lemma WholeSecondsHead(rt: Runtime, holdings: map<string, Holding>, order: seq<string>, until: int)
    requires order != [] && Agree(rt, holdings, order)
    ensures WholeSeconds(holdings, order, until)
            == WholeSeconds(rt.holdings, [order[0]], until) + WholeSeconds(holdings, order[1..], until)
  {
    assert order[0] in order;
    OneWholeSeconds(rt.holdings, order[0], until);
  }

  // ---------------------------------------------------------------- closing a period

  lemma AccrueCharges(rt: Runtime, name: string, units: int, at: int)
    requires name in rt.holdings
    ensures ChargedFor(rt, Accrue(rt, name, units, at), [units])
  {
    hide ApplyOverdraft;
    var cost := ApplyOverdraft(rt.config, rt.consumed, units);
    assert [units][1..] == [];
    assert ChargeAll(rt.config, rt.consumed + cost.0, [units][1..]) == (rt.consumed + cost.0, 0);
  }

  /** What closing does to one hold: it is charged its whole seconds, and no other hold is touched. */
  lemma CloseOne(rt: Runtime, name: string, end: int)
    ensures var t := FinalizeOne(rt, name, end, false);
            && ChargedFor(rt, t, WholeSeconds(rt.holdings, [name], end))
            && t.holdings.Keys == rt.holdings.Keys && t.currentOverdraft == rt.currentOverdraft
            && (forall n | n in rt.holdings && n != name :: t.holdings[n] == rt.holdings[n])
            && (name in rt.holdings ==> t.holdings[name].expiresAt == rt.holdings[name].expiresAt)
  {
    hide ApplyOverdraft, ChargedFor;
    ChargedNothing(rt);
    OneWholeSeconds(rt.holdings, name, end);
    if name in rt.holdings {
      AccrueCharges(rt, name, (end - rt.holdings[name].lastMeteredAt) / SECOND, end);
    }
  }

  lemma {:induction false} CloseCharges(rt: Runtime, holdings: map<string, Holding>, order: seq<string>, end: int)
    requires Distinct(order) && Agree(rt, holdings, order)
    ensures var t := FinalizeAll(rt, order, end, false);
            && ChargedFor(rt, t, WholeSeconds(holdings, order, end))
            && t.holdings.Keys == rt.holdings.Keys && t.currentOverdraft == rt.currentOverdraft
            && (forall n | n in rt.holdings :: t.holdings[n].expiresAt == rt.holdings[n].expiresAt)
    decreases |order|
  {
    hide ChargedFor, FinalizeOne, WholeSeconds;
    if order == [] {
      NoWholeSeconds(holdings, end);
      ChargedNothing(rt);
    } else {
      var name, rest := order[0], order[1..];
      var t := FinalizeOne(rt, name, end, false);
      CloseOne(rt, name, end);
      assert name in order && name !in rest;
      WholeSecondsHead(rt, holdings, order, end);
      CloseCharges(t, holdings, rest, end);
      ChargedTwice(rt, t, FinalizeAll(t, rest, end, false), WholeSeconds(rt.holdings, [name], end),
                   WholeSeconds(holdings, rest, end));
    }
  }

  /** In arrears closing charges nothing and meters every hold up to the period's end. */
  lemma {:induction false} CloseInArrears(rt: Runtime, order: seq<string>, end: int)
    ensures var t := FinalizeAll(rt, order, end, true);
            && t == rt.(holdings := t.holdings) && t.holdings.Keys == rt.holdings.Keys
            && forall n | n in rt.holdings ::
                 t.holdings[n] == rt.holdings[n].(lastMeteredAt := if n in order && rt.holdings[n].lastMeteredAt < end then end
                                                                   else rt.holdings[n].lastMeteredAt)
    decreases |order|
  {
    if order != [] {
      CloseInArrears(FinalizeOne(rt, order[0], end, true), order[1..], end);
      assert order == [order[0]] + order[1..];
    }
  }

  /** The consumption reached and the surcharge when a period is closed: out of arrears each hold pays its
      whole seconds up to the period's end, in arrears nobody pays anything. */
  function CloseCost(rt: Runtime, order: seq<string>, inArrears: bool): (int, int) {
    if inArrears then (rt.consumed, 0)
    else ChargeAll(rt.config, rt.consumed, WholeSeconds(rt.holdings, order, rt.periodEnd))
  }

  lemma ClosedAt(rt: Runtime, order: seq<string>, inArrears: bool)
    requires ListsOnce(order, rt.holdings.Keys)
    ensures var t := FinalizeAll(rt, order, rt.periodEnd, inArrears);
            && (t.consumed, t.penalty - rt.penalty) == CloseCost(rt, order, inArrears)
            && t.currentOverdraft == rt.currentOverdraft && t.holdings.Keys == rt.holdings.Keys
            && forall n | n in rt.holdings :: t.holdings[n].expiresAt == rt.holdings[n].expiresAt
  {
    if inArrears {
      CloseInArrears(rt, order, rt.periodEnd);
    } else {
      CloseCharges(rt, rt.holdings, order, rt.periodEnd);
    }
  }

  /** The close of a period: what is stored for it, what the next one starts with, and that every hold is
      metered afresh from the moment of the check. */
  lemma CloseExact(rt: Runtime, order: seq<string>, now: int, inArrears: bool, epoch: int)
    requires PeriodsOk(rt, epoch) && rt.periodEnd <= now && ListsOnce(order, rt.holdings.Keys)
    ensures var t := Reset(rt, order, now, inArrears);
            var (consumed, surcharge) := CloseCost(rt, order, inArrears);
            && |t.summaries| > |rt.summaries|
            && t.summaries[|rt.summaries|] == (if inArrears then Summary(rt.periodStart, rt.periodEnd, 0, 0)
                                               else Summary(rt.periodStart, rt.periodEnd, consumed, rt.penalty + surcharge))
            && t.consumed == t.carryOver == (if inArrears then 0 else rt.currentOverdraft + rt.penalty + surcharge)
            && t.currentOverdraft == 0 && t.penalty == 0
            && t.holdings.Keys == rt.holdings.Keys
            && forall n | n in rt.holdings :: t.holdings[n] == Holding(rt.holdings[n].expiresAt, now, 0)
  {
    hide Tiled, CloseCost, FinalizeAll, PeriodsToAdvance, ListsOnce;
    ClosedAt(rt, order, inArrears);
    FinalizeKeepsConfig(rt, order, rt.periodEnd, inArrears);
    StoredFirst(rt, order, now, inArrears, epoch);
    hide Upsert, AddEmpty;
  }

  lemma StoredFirst(rt: Runtime, order: seq<string>, now: int, inArrears: bool, epoch: int)
    requires PeriodsOk(rt, epoch) && rt.periodEnd <= now
    ensures var t, f := Reset(rt, order, now, inArrears), FinalizeAll(rt, order, rt.periodEnd, inArrears);
            && |t.summaries| > |rt.summaries|
            && t.summaries[|rt.summaries|] == (if inArrears then Summary(rt.periodStart, rt.periodEnd, 0, 0)
                                               else Summary(rt.periodStart, rt.periodEnd, f.consumed, f.penalty))
  {
    hide Tiled, FinalizeAll, PeriodsToAdvance, Remetered, Upsert, AddEmpty;
    var f := FinalizeAll(rt, order, rt.periodEnd, inArrears);
    FinalizeKeepsConfig(rt, order, rt.periodEnd, inArrears);
    PeriodsBounds(Elapsed(rt, now), rt.config.periodSec);
    var s := if inArrears then Summary(rt.periodStart, rt.periodEnd, 0, 0) else Summary(rt.periodStart, rt.periodEnd, f.consumed, f.penalty);
    UpsertTile(rt.summaries, epoch, rt.periodStart, s);
    EmptyTiles(rt.summaries + [s], epoch, rt.periodEnd, rt.config.periodSec * SECOND,
               PeriodsToAdvance(Elapsed(rt, now), rt.config.periodSec) - 1);
    assert (rt.summaries + [s])[|rt.summaries|] == s;
  }

  /** A hold that has paid its whole seconds since `from`, without surcharge. */
  predicate PaidSince(rt: Runtime, name: string, from: int, until: int) {
    && name in rt.holdings && rt.config.overdraftLimit <= 0
    && var h := rt.holdings[name];
       h.unitsAccrued >= 0 && h.lastMeteredAt == from + h.unitsAccrued * SECOND && h.lastMeteredAt <= until
  }

  /** The hold has paid for the whole period, up to a fraction of a second. */
  predicate PaidUp(rt: Runtime, name: string, from: int, end: int) {
    && name in rt.holdings && rt.config.overdraftLimit <= 0
    && rt.holdings[name].unitsAccrued == (end - from) / SECOND
    && end - SECOND < rt.holdings[name].lastMeteredAt <= end
  }

  lemma CloseOwn(rt: Runtime, name: string, from: int, end: int)
    requires PaidSince(rt, name, from, end)
    ensures PaidUp(FinalizeOne(rt, name, end, false), name, from, end)
  {
    var h := rt.holdings[name];
    assert (end - from) / SECOND == h.unitsAccrued + (end - h.lastMeteredAt) / SECOND;
  }

  lemma CloseOther(rt: Runtime, n: string, name: string, from: int, end: int)
    ensures PaidUp(rt, name, from, end) ==> PaidUp(FinalizeOne(rt, n, end, false), name, from, end)
    ensures n != name && PaidSince(rt, name, from, end) ==> PaidSince(FinalizeOne(rt, n, end, false), name, from, end)
  {
    hide ApplyOverdraft;
  }

  lemma {:induction false} CloseAllPaid(rt: Runtime, order: seq<string>, name: string, from: int, end: int)
    requires PaidUp(rt, name, from, end) || (PaidSince(rt, name, from, end) && name in order)
    ensures PaidUp(FinalizeAll(rt, order, end, false), name, from, end)
    decreases |order|
  {
    hide FinalizeOne, PaidUp, PaidSince;
    if order != [] {
      var n := order[0];
      var t := FinalizeOne(rt, n, end, false);
      CloseOther(rt, n, name, from, end);
      if PaidUp(rt, name, from, end) {
        CloseAllPaid(t, order[1..], name, from, end);
      } else {
        if n == name {
          CloseOwn(rt, name, from, end);
        }
        CloseAllPaid(t, order[1..], name, from, end);
      }
    }
  }

  /** A hold that goes on over the end of a period has paid exactly its whole seconds in it when the period is
      closed, whatever ticks fell in between; in the next period it pays from the moment of the close on, so the
      fraction of a second and the time between the period's end and the close are never paid. */
  lemma HoldAcrossPeriods(rt: Runtime, name: string, acquiredAt: int, expiresAt: int, ops: seq<BudgetOp>, order: seq<string>,
                          now: int, epoch: int)
    requires PeriodsOk(rt, epoch) && rt.config.overdraftLimit <= 0 && rt.periodStart <= acquiredAt <= rt.periodEnd <= now
    requires AllUndisturbed(Start(rt, name, acquiredAt, expiresAt), ops, name, rt.periodEnd)
    requires RunOf(Start(rt, name, acquiredAt, expiresAt), ops).periodEnd == rt.periodEnd
    requires ListsOnce(order, RunOf(Start(rt, name, acquiredAt, expiresAt), ops).holdings.Keys)
    ensures var before := RunOf(Start(rt, name, acquiredAt, expiresAt), ops);
            && name in before.holdings && PaidUp(FinalizeAll(before, order, rt.periodEnd, false), name, acquiredAt, rt.periodEnd)
            && PeriodsOk(before, epoch)
            && var after := Reset(before, order, now, false);
               name in after.holdings && after.holdings[name] == Holding(before.holdings[name].expiresAt, now, 0)
  {
    hide RunOf, AllUndisturbed, Reset, PaidUp, Tiled;
    var open := Start(rt, name, acquiredAt, expiresAt);
    var before := RunOf(open, ops);
    RunCharges(open, ops, name, acquiredAt, rt.periodEnd);
    RunTiles(open, ops, epoch);
    CloseAllPaid(before, order, name, acquiredAt, rt.periodEnd);
    CloseExact(before, order, now, false, epoch);
  }

  // ---------------------------------------------------------------- one tick

  lemma MeterOneExact(rt: Runtime, name: string, now: int)
    ensures var t := MeterOne(rt, name, now, false);
            var part := WholeSeconds(Unexpired(rt.holdings, now), [name], now);
            && ChargedFor(rt, t, part)
            && t.holdings.Keys == rt.holdings.Keys
            && (forall n | n in rt.holdings && n != name :: t.holdings[n] == rt.holdings[n])
            && (name in rt.holdings ==>
                  && t.holdings[name].expiresAt == rt.holdings[name].expiresAt
                  && t.holdings[name].lastMeteredAt == MeteredUntil(rt.holdings[name], now, false))
            && Noted(rt, t, part)
  {
    hide ApplyOverdraft, ChargedFor;
    ChargedNothing(rt);
    OneWholeSeconds(Unexpired(rt.holdings, now), name, now);
    if name in rt.holdings {
      var last := rt.holdings[name].lastMeteredAt;
      var units := (now - last) / SECOND;
      ChargedOnce(rt, name, units, last + units * SECOND);
    }
  }

  /** Where the metering of a hold stands after a tick. */
  function MeteredUntil(h: Holding, now: int, inArrears: bool): int {
    if h.expiresAt <= now then h.lastMeteredAt
    else if inArrears then now
    else if h.lastMeteredAt < now then now - (now - h.lastMeteredAt) % SECOND
    else h.lastMeteredAt
  }

  lemma PartsCharged(c: Config, consumed: int, parts: seq<int>)
    requires forall i | 0 <= i < |parts| :: parts[i] >= 0
    ensures ChargeAll(c, consumed, parts).0 >= consumed
    decreases |parts|
  {
  }

  /** The overdraft noted after these charges. */
  ghost predicate Noted(rt: Runtime, t: Runtime, parts: seq<int>) {
    t.currentOverdraft == if parts != [] && t.consumed > rt.config.budgetLimit
                          then t.consumed - rt.config.budgetLimit else rt.currentOverdraft
  }

  lemma NotedTwice(rt: Runtime, t: Runtime, u: Runtime, a: seq<int>, b: seq<int>)
    requires Noted(rt, t, a) && Noted(t, u, b)
    requires t.config == rt.config && t.consumed >= rt.consumed && u.consumed >= t.consumed && (b == [] ==> u.consumed == t.consumed)
    ensures Noted(rt, u, a + b)
  {
  }

  lemma {:induction false} MeterCharges(rt: Runtime, holdings: map<string, Holding>, order: seq<string>, now: int)
    requires Distinct(order) && Agree(rt, holdings, order)
    ensures var t := MeterAll(rt, order, now, false);
            var parts := WholeSeconds(Unexpired(holdings, now), order, now);
            ChargedFor(rt, t, parts) && Noted(rt, t, parts)
    decreases |order|
  {
    hide ChargedFor, Noted, MeterOne, MeteredUntil, WholeSeconds, Unexpired;
    if order == [] {
      ChargedNothing(rt);
      NothingNoted(rt, holdings, now);
    } else {
      var name, rest := order[0], order[1..];
      var t := MeterOne(rt, name, now, false);
      MeterOneExact(rt, name, now);
      assert name in order && name !in rest;
      MeterCharges(t, holdings, rest, now);
      var u := MeterAll(t, rest, now, false);
      var first, others := WholeSeconds(Unexpired(rt.holdings, now), [name], now), WholeSeconds(Unexpired(holdings, now), rest, now);
      LiveSecondsHead(rt, holdings, order, now);
      ChargedTwice(rt, t, u, first, others);
      ChargesGrow(rt, t, Unexpired(rt.holdings, now), [name], now);
      ChargesGrow(t, u, Unexpired(holdings, now), rest, now);
      NotedTwice(rt, t, u, first, others);
    }
  }

  lemma NothingNoted(rt: Runtime, holdings: map<string, Holding>, now: int)
    ensures WholeSeconds(Unexpired(holdings, now), [], now) == [] && Noted(rt, rt, [])
  {
  }

  lemma LiveSecondsHead(rt: Runtime, holdings: map<string, Holding>, order: seq<string>, now: int)
    requires order != [] && Agree(rt, holdings, order)
    ensures WholeSeconds(Unexpired(holdings, now), order, now)
            == WholeSeconds(Unexpired(rt.holdings, now), [order[0]], now) + WholeSeconds(Unexpired(holdings, now), order[1..], now)
  {
    assert order[0] in order;
    LiveAlike(rt.holdings, holdings, order[0], now);
    hide Unexpired, Agree;
    OneWholeSeconds(Unexpired(rt.holdings, now), order[0], now);
  }

  lemma LiveAlike(a: map<string, Holding>, b: map<string, Holding>, name: string, now: int)
    requires (name in a <==> name in b) && (name in a ==> a[name] == b[name])
    ensures (name in Unexpired(a, now) <==> name in Unexpired(b, now))
            && (name in Unexpired(a, now) ==> Unexpired(a, now)[name] == Unexpired(b, now)[name])
  {
  }

  lemma ChargesGrow(rt: Runtime, t: Runtime, holdings: map<string, Holding>, order: seq<string>, until: int)
    requires ChargedFor(rt, t, WholeSeconds(holdings, order, until))
    ensures t.config == rt.config && t.consumed >= rt.consumed
    ensures WholeSeconds(holdings, order, until) == [] ==> t.consumed == rt.consumed
  {
    WholeSecondsPositive(holdings, order, until);
    PartsCharged(rt.config, rt.consumed, WholeSeconds(holdings, order, until));
  }

  lemma WholeSecondsPositive(holdings: map<string, Holding>, order: seq<string>, until: int)
    ensures forall i | 0 <= i < |WholeSeconds(holdings, order, until)| :: WholeSeconds(holdings, order, until)[i] > 0
  {
  }

  lemma {:induction false} MeterInArrears(rt: Runtime, order: seq<string>, now: int)
    ensures var t := MeterAll(rt, order, now, true); t == rt.(holdings := t.holdings)
    decreases |order|
  {
    if order != [] {
      MeterInArrears(MeterOne(rt, order[0], now, true), order[1..], now);
    }
  }

  lemma {:induction false} MeterHolds(rt: Runtime, holdings: map<string, Holding>, order: seq<string>, now: int, inArrears: bool)
    requires Distinct(order) && Agree(rt, holdings, order)
    ensures var t := MeterAll(rt, order, now, inArrears);
            && t.holdings.Keys == rt.holdings.Keys
            && (forall n | n in rt.holdings && n !in order :: t.holdings[n] == rt.holdings[n])
            && (forall n | n in rt.holdings && n in order ::
                  t.holdings[n].expiresAt == holdings[n].expiresAt
                  && t.holdings[n].lastMeteredAt == MeteredUntil(holdings[n], now, inArrears))
    decreases |order|
  {
    hide MeterOne, MeteredUntil;
    if order != [] {
      var name, rest := order[0], order[1..];
      var t := MeterOne(rt, name, now, inArrears);
      MeterOneHold(rt, name, now, inArrears);
      assert name in order && name !in rest;
      MeterHolds(t, holdings, rest, now, inArrears);
    }
  }

  lemma MeterOneHold(rt: Runtime, name: string, now: int, inArrears: bool)
    ensures var t := MeterOne(rt, name, now, inArrears);
            && t.holdings.Keys == rt.holdings.Keys
            && (forall n | n in rt.holdings && n != name :: t.holdings[n] == rt.holdings[n])
            && (name in rt.holdings ==>
                  && t.holdings[name].expiresAt == rt.holdings[name].expiresAt
                  && t.holdings[name].lastMeteredAt == MeteredUntil(rt.holdings[name], now, inArrears))
  {
    hide ApplyOverdraft;
    if !inArrears {
      MeterOneExact(rt, name, now);
    }
  }

  /** A metering: out of arrears every hold that has not ended pays its whole seconds and keeps the
      fraction for later, in arrears nobody pays; the holds that have ended go unpaid. */
  lemma MeterExact(rt: Runtime, order: seq<string>, now: int, inArrears: bool)
    requires ListsOnce(order, rt.holdings.Keys)
    ensures var t := Meter(rt, order, now, inArrears);
            var parts := if inArrears then [] else WholeSeconds(Unexpired(rt.holdings, now), order, now);
            && ChargedFor(rt, t, parts)
            && t.currentOverdraft == (if parts != [] && t.consumed > rt.config.budgetLimit
                                      then t.consumed - rt.config.budgetLimit else rt.currentOverdraft)
            && (forall n :: n in t.holdings <==> n in rt.holdings && rt.holdings[n].expiresAt > now)
            && (forall n | n in t.holdings ::
                  && t.holdings[n].expiresAt == rt.holdings[n].expiresAt
                  && t.holdings[n].lastMeteredAt
                     == if inArrears then now
                        else if rt.holdings[n].lastMeteredAt < now then now - (now - rt.holdings[n].lastMeteredAt) % SECOND
                        else rt.holdings[n].lastMeteredAt)
  {
    hide MeterAll, ChargeAll, WholeSeconds;
    MeterHolds(rt, rt.holdings, order, now, inArrears);
    if inArrears {
      MeterInArrears(rt, order, now);
      ChargedNothing(rt);
    } else {
      MeterCharges(rt, rt.holdings, order, now);
    }
  }

  /** A tick inside the period meters. A tick at its end or later first closes it: the closed period is stored with
      what the holds paid up to its end, the next one starts with what is carried over, the time between the
      period's end and the tick is not charged, and the holds that have ended are gone. */
  lemma TickExact(rt: Runtime, resetOrder: seq<string>, order: seq<string>, now: int, inArrears: bool, epoch: int)
    requires PeriodsOk(rt, epoch) && ListsOnce(resetOrder, rt.holdings.Keys) && ListsOnce(order, rt.holdings.Keys)
    ensures var t := Tick(rt, resetOrder, order, now, inArrears);
            if now < rt.periodEnd then t == Meter(rt, order, now, inArrears)
            else
              var (consumed, surcharge) := CloseCost(rt, resetOrder, inArrears);
              && |t.summaries| > |rt.summaries|
              && t.summaries[|rt.summaries|] == (if inArrears then Summary(rt.periodStart, rt.periodEnd, 0, 0)
                                                 else Summary(rt.periodStart, rt.periodEnd, consumed, rt.penalty + surcharge))
              && t.periodStart <= now && PeriodsOk(t, epoch)
              && t.consumed == t.carryOver == (if inArrears then 0 else rt.currentOverdraft + rt.penalty + surcharge)
              && t.currentOverdraft == 0 && t.penalty == 0
              && t.holdings == map n | n in rt.holdings && rt.holdings[n].expiresAt > now :: Holding(rt.holdings[n].expiresAt, now, 0)
  {
    assert rt.config.periodSec > 0;
    hide Reset, MeterAll, PeriodsOk, ListsOnce, CloseCost;
    if rt.periodEnd <= now {
      CloseExact(rt, resetOrder, now, inArrears, epoch);
      ResetTiles(rt, resetOrder, now, inArrears, epoch);
      PeriodOpened(rt, resetOrder, now, inArrears, epoch);
      var t := Reset(rt, resetOrder, now, inArrears);
      NothingDue(t, order, now, inArrears);
      SamePeriods(t, Tick(rt, resetOrder, order, now, inArrears), epoch);
    } else {
      InThePeriod(rt, resetOrder, now, inArrears, epoch);
    }
  }

  lemma InThePeriod(rt: Runtime, order: seq<string>, now: int, inArrears: bool, epoch: int)
    requires PeriodsOk(rt, epoch) && now < rt.periodEnd
    ensures Reset(rt, order, now, inArrears) == rt
  {
  }

  lemma PeriodOpened(rt: Runtime, order: seq<string>, now: int, inArrears: bool, epoch: int)
    requires PeriodsOk(rt, epoch) && rt.periodEnd <= now
    ensures Reset(rt, order, now, inArrears).periodStart <= now
  {
    var n := RollOver(rt, order, now, inArrears);
  }

  lemma SamePeriods(rt: Runtime, t: Runtime, epoch: int)
    requires PeriodsOk(rt, epoch)
    requires t == rt.(consumed := t.consumed, currentOverdraft := t.currentOverdraft, penalty := t.penalty, holdings := t.holdings)
    ensures PeriodsOk(t, epoch)
  {
  }

  /** Holds that have just been metered have nothing to pay. */
  lemma {:induction false} NothingDue(rt: Runtime, order: seq<string>, now: int, inArrears: bool)
    requires forall n | n in rt.holdings :: rt.holdings[n].lastMeteredAt == now
    ensures MeterAll(rt, order, now, inArrears) == rt
    decreases |order|
  {
    if order != [] {
      assert MeterOne(rt, order[0], now, inArrears) == rt by {
        if order[0] in rt.holdings {
          var h := rt.holdings[order[0]];
          assert rt.holdings[order[0] := h.(lastMeteredAt := now)] == rt.holdings;
        }
      }
      hide MeterOne;
      NothingDue(rt, order[1..], now, inArrears);
    }
  }

  // ---------------------------------------------------------------- one hold

  /** The end of a hold charges the rest, rounded up, and says what the hold has cost; no other hold changes. */
  lemma StopExact(rt: Runtime, name: string, releasedAt: int)
    requires name in rt.holdings
    ensures var t := Stop(rt, name, releasedAt);
            var last := rt.holdings[name].lastMeteredAt;
            && ChargedFor(rt, t, if last < releasedAt then [(releasedAt - last + SECOND - 1) / SECOND] else [])
            && StopUnits(rt, name, releasedAt) == rt.holdings[name].unitsAccrued + (t.consumed - rt.consumed)
            && t.holdings == rt.holdings - {name}
            && t.currentOverdraft == (if last < releasedAt && t.consumed > rt.config.budgetLimit
                                      then t.consumed - rt.config.budgetLimit else rt.currentOverdraft)
  {
    hide ApplyOverdraft, ChargeAll;
    var last := rt.holdings[name].lastMeteredAt;
    ChargedNothing(rt);
    ChargedOnce(rt, name, (releasedAt - last + SECOND - 1) / SECOND, releasedAt);
  }

  /** A renewal moves the end of a known hold and nothing else: a metering then keeps and charges it exactly if its
      new end is still to come, whatever the old one was. */
  lemma RenewExact(rt: Runtime, name: string, expiresAt: int, order: seq<string>, now: int, inArrears: bool)
    requires ListsOnce(order, rt.holdings.Keys)
    ensures var t := Renew(rt, name, expiresAt);
            && t == rt.(holdings := t.holdings) && t.holdings.Keys == rt.holdings.Keys
            && (forall n | n in rt.holdings && n != name :: t.holdings[n] == rt.holdings[n])
            && (name in rt.holdings ==>
                  && t.holdings[name] == Holding(expiresAt, rt.holdings[name].lastMeteredAt, rt.holdings[name].unitsAccrued)
                  && (name in Meter(t, order, now, inArrears).holdings <==> now < expiresAt))
  {
    var t := Renew(rt, name, expiresAt);
    assert t.holdings.Keys == rt.holdings.Keys;
    hide Meter, ListsOnce, ChargedFor, WholeSeconds;
    MeterExact(t, order, now, inArrears);
  }

  // ---------------------------------------------------------------- stored summaries

  /** A summary of a start that is known replaces it, with both penalties; another one goes to the end. */
  lemma {:induction false} UpsertExact(summaries: seq<Summary>, s: Summary, i: nat)
    requires i <= |summaries| && (forall j | 0 <= j < i :: summaries[j].start != s.start)
    requires i < |summaries| ==> summaries[i].start == s.start
    ensures Upsert(summaries, s)
            == if i < |summaries| then summaries[i := Summary(s.start, s.end, s.consumed, summaries[i].penalty + s.penalty)]
               else summaries + [s]
  {
    if i > 0 {
      UpsertExact(summaries[1..], s, i - 1);
      assert summaries == [summaries[0]] + summaries[1..];
    }
  }

  lemma {:induction false} WithinLimitCost(c: Config, consumed: int, parts: seq<int>)
    requires NonNegative(parts) && (parts != [] ==> consumed + Units(parts) <= c.budgetLimit)
    ensures ChargeAll(c, consumed, parts) == (consumed + Units(parts), 0)
    decreases |parts|
  {
    if parts != [] {
      UnitsNonNegative(parts[1..]);
      WithinLimitCost(c, consumed + parts[0], parts[1..]);
    }
  }

  lemma {:induction false} UnitsPositive(parts: seq<int>)
    requires forall i | 0 <= i < |parts| :: parts[i] > 0
    ensures parts != [] ==> Units(parts) > 0
  {
    if parts != [] {
      UnitsPositive(parts[1..]);
    }
  }

  lemma CostAtLeast(c: Config, consumed: int, parts: seq<int>)
    requires NonNegative(parts)
    ensures ChargeAll(c, consumed, parts).0 >= consumed + Units(parts)
  {
    hide ChargeAll, Units, OddParts;
    if c.overdraftLimit > 0 {
      UnitsNonNegative(parts);
      SplitBounds(c, consumed, parts);
      SplitCost(c, consumed, parts);
    } else {
      NoSurcharge(c, consumed, parts);
    }
  }

  /** The overdraft carried over is the one noted at the last metering. Where that was up to date, the whole
      overdraft of the period is carried over exactly if the seconds left to the close overdraw nothing more. */
  lemma CarriedInFull(rt: Runtime, order: seq<string>, now: int, epoch: int)
    requires PeriodsOk(rt, epoch) && rt.periodEnd <= now && ListsOnce(order, rt.holdings.Keys)
    requires rt.currentOverdraft == if rt.consumed > rt.config.budgetLimit then rt.consumed - rt.config.budgetLimit else 0
    ensures var t := Reset(rt, order, now, false);
            |t.summaries| > |rt.summaries| &&
            var closed := t.summaries[|rt.summaries|];
            var overdraft := if closed.consumed > rt.config.budgetLimit then closed.consumed - rt.config.budgetLimit else 0;
            var due := WholeSeconds(rt.holdings, order, rt.periodEnd);
            t.carryOver == overdraft + closed.penalty
            <==> due == [] || rt.consumed + Units(due) <= rt.config.budgetLimit
  {
    hide Reset, Tiled, ListsOnce, WholeSeconds, Units, ChargeAll;
    CloseExact(rt, order, now, false, epoch);
    var due := WholeSeconds(rt.holdings, order, rt.periodEnd);
    WholeSecondsPositive(rt.holdings, order, rt.periodEnd);
    UnitsPositive(due);
    CostAtLeast(rt.config, rt.consumed, due);
    if due == [] || rt.consumed + Units(due) <= rt.config.budgetLimit {
      WithinLimitCost(rt.config, rt.consumed, due);
      NoUnits();
    }
  }

  /** A debt is carried over once: a caller that holds nothing owes nothing after a second roll-over, however
      far over its limit the first one left it. */
  lemma DebtCarriedOnce(rt: Runtime, now: int, later: int, epoch: int)
    requires PeriodsOk(rt, epoch) && rt.holdings == map[] && rt.periodEnd <= now
    requires Reset(rt, [], now, false).periodEnd <= later
    ensures var once := Reset(rt, [], now, false);
            && once.consumed == rt.currentOverdraft + rt.penalty && once.config == rt.config && once.config.periodSec > 0
            && Reset(once, [], later, false).consumed == 0
  {
    hide Reset, Tiled;
    ResetKeepsConfig(rt, [], now, false);
    ResetTiles(rt, [], now, false, epoch);
    CloseExact(rt, [], now, false, epoch);
    var once := Reset(rt, [], now, false);
    CloseExact(once, [], later, false, epoch);
  }

  lemma NoUnits()
    ensures Units([]) == 0
  {
  }

  /** The overdraft that the close itself reaches is not carried over: the same hold over the same
      period leaves a caller 10 units down if the close is the first to meter it, 40 if a tick a second
      before was. */
  lemma UnmeteredOverdraftForgiven()
    ensures var rt := Runtime(Config(100, 120, 50), 0, 120 * SECOND, 0, 0, 0, 0, map["L" := Holding(200 * SECOND, 0, 0)], []);
            && Reset(rt, ["L"], 120 * SECOND, false).carryOver == 10
            && Reset(Tick(rt, [], ["L"], 119 * SECOND, false), ["L"], 120 * SECOND, false).carryOver == 40
  {
    var rt := Runtime(Config(100, 120, 50), 0, 120 * SECOND, 0, 0, 0, 0, map["L" := Holding(200 * SECOND, 0, 0)], []);
    var ticked := Tick(rt, [], ["L"], 119 * SECOND, false);
    assert ["L"][1..] == [];
    assert MeterAll(MeterOne(rt, "L", 119 * SECOND, false), ["L"][1..], 119 * SECOND, false) == MeterOne(rt, "L", 119 * SECOND, false);
    assert ticked.holdings["L"] == Holding(200 * SECOND, 119 * SECOND, 129);
    LastHold(rt, 120);
    LastHold(ticked, 1);
  }

  /** Closing a period in which one hold has these whole seconds left. */
  lemma LastHold(rt: Runtime, seconds: int)
    requires PeriodsOk(rt, 0) && rt.holdings.Keys == {"L"} && seconds > 0
    requires rt.holdings["L"].lastMeteredAt == rt.periodEnd - seconds * SECOND
    ensures Reset(rt, ["L"], rt.periodEnd, false).carryOver
            == rt.currentOverdraft + rt.penalty + ApplyOverdraft(rt.config, rt.consumed, seconds).1
  {
    hide ApplyOverdraft;
    OneWholeSeconds(rt.holdings, "L", rt.periodEnd);
    var cost := ApplyOverdraft(rt.config, rt.consumed, seconds);
    assert [seconds][1..] == [];
    assert ChargeAll(rt.config, rt.consumed + cost.0, [seconds][1..]) == (rt.consumed + cost.0, 0);
    CloseExact(rt, ["L"], rt.periodEnd, false, 0);
  }
}
