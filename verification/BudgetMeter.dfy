/** One caller of the lock-budget manager, changed in place as internal/lockbudget/manager.go does;
    each method is the function of LockBudget with the same purpose. */
module BudgetMeter {
  import opened Clock
  import opened LockBudget
  import opened BudgetLaws
  import BudgetPeriods

  class Caller {
    const config: Config
    var periodStart: int
    var periodEnd: int
    var consumed: int
    var currentOverdraft: int
    var penalty: int
    var carryOver: int
    var holdings: map<string, Holding>
    var summaries: seq<Summary>

    function View(): Runtime
      reads this
    {
      Runtime(config, periodStart, periodEnd, consumed, currentOverdraft, penalty, carryOver, holdings, summaries)
    }

    constructor (config: Config, now: int)
      requires config.periodSec > 0
      ensures View() == Runtime(config, now, now + config.periodSec * SECOND, 0, 0, 0, 0, map[], [])
      ensures BudgetPeriods.PeriodsOk(View(), now)
    {
      this.config := config;
      periodStart, periodEnd := now, now + config.periodSec * SECOND;
      consumed, currentOverdraft, penalty, carryOver := 0, 0, 0, 0;
      holdings, summaries := map[], [];
    }

    method AddUnits(name: string, units: int, meteredAt: int)
      requires name in holdings
      modifies this`consumed, this`penalty, this`holdings
      ensures View() == Accrue(old(View()), name, units, meteredAt)
    {
      var cost := ApplyOverdraft(config, consumed, units);
      consumed := consumed + cost.0;
      penalty := penalty + cost.1;
      var h := holdings[name];
      holdings := holdings[name := h.(unitsAccrued := h.unitsAccrued + cost.0, lastMeteredAt := meteredAt)];
    }

    method MeterHolding(name: string, now: int, inArrears: bool)
      requires name in holdings && holdings[name].expiresAt > now
      modifies this`consumed, this`penalty, this`holdings, this`currentOverdraft
      ensures View() == MeterOne(old(View()), name, now, inArrears)
    {
      hide ApplyOverdraft;
      var h := holdings[name];
      if inArrears {
        holdings := holdings[name := h.(lastMeteredAt := now)];
      } else if h.lastMeteredAt < now {
        var units := (now - h.lastMeteredAt) / SECOND;
        if units > 0 {
          AddUnits(name, units, h.lastMeteredAt + units * SECOND);
          if consumed > config.budgetLimit {
            currentOverdraft := consumed - config.budgetLimit;
          }
        }
      }
    }

    /** Meters every hold once, in the order in which the map happens to be iterated, and then removes
        those that have expired. */
    method MeterCaller(now: int, inArrears: bool) returns (ghost order: seq<string>)
      modifies this`consumed, this`penalty, this`holdings, this`currentOverdraft
      ensures View() == Meter(old(View()), order, now, inArrears)
      ensures ListsOnce(order, old(holdings).Keys)
    {
      hide MeterOne, MeterAll, DropExpired, ListsOnce;
      ListsNone();
      order := [];
      var toRemove: set<string> := {};
      var left := holdings.Keys;
      ghost var done: set<string> := {};
      MeterNone(View(), now, inArrears);
      while left != {}
        invariant View() == MeterAll(old(View()), order, now, inArrears)
        invariant left <= holdings.Keys == old(holdings).Keys
        invariant done == old(holdings).Keys - left && ListsOnce(order, done)
        invariant forall name | name in holdings :: holdings[name].expiresAt == old(holdings)[name].expiresAt
        invariant forall name | name in old(holdings) :: name in toRemove <==> name in done && old(holdings)[name].expiresAt <= now
        decreases |left|
      {
        var name :| name in left;
        left := left - {name};
        ghost var before := View();
        MeterOneHoldings(before, name, now, inArrears);
        if holdings[name].expiresAt <= now {
          toRemove := toRemove + {name};
        } else {
          MeterHolding(name, now, inArrears);
        }
        MeterLast(old(View()), order, name, now, inArrears);
        ListsNext(order, done, name);
        order, done := order + [name], done + {name};
      }
      assert done == old(holdings).Keys;
      ExpiredRemoved(View(), toRemove, now);
      holdings := holdings - toRemove;
    }

    method StartHolding(name: string, acquiredAt: int, expiresAt: int)
      modifies this`holdings
      ensures View() == Start(old(View()), name, acquiredAt, expiresAt)
    {
      var meterStart := acquiredAt;
      if meterStart < periodStart {
        meterStart := periodStart;
      }
      holdings := holdings[name := Holding(expiresAt, meterStart, 0)];
    }

    method RenewHolding(name: string, expiresAt: int)
      modifies this`holdings
      ensures View() == Renew(old(View()), name, expiresAt)
    {
      if name in holdings {
        holdings := holdings[name := holdings[name].(expiresAt := expiresAt)];
      }
    }

    method StopHolding(name: string, releasedAt: int) returns (units: int)
      modifies this`consumed, this`penalty, this`holdings, this`currentOverdraft
      ensures View() == Stop(old(View()), name, releasedAt)
      ensures units == StopUnits(old(View()), name, releasedAt)
    {
      hide ApplyOverdraft;
      if name !in holdings {
        return 0;
      }
      var last := holdings[name].lastMeteredAt;
      if last < releasedAt {
        AddUnits(name, SecondsUp(releasedAt - last), releasedAt);
        if consumed > config.budgetLimit {
          currentOverdraft := consumed - config.budgetLimit;
        }
      }
      units := holdings[name].unitsAccrued;
      holdings := holdings - {name};
    }

    // -------------------------------------------------------------- roll-over

    method FinalizeCurrentPeriod(end: int, inArrears: bool) returns (ghost order: seq<string>)
      modifies this`consumed, this`penalty, this`holdings, this`summaries
      ensures View() == Finalize(old(View()), order, end, inArrears)
      ensures ListsOnce(order, old(holdings).Keys) && holdings.Keys == old(holdings).Keys
    {
      hide FinalizeOne, Upsert, ListsOnce;
      ListsNone();
      order := [];
      var left := holdings.Keys;
      ghost var done: set<string> := {};
      while left != {}
        invariant View() == FinalizeAll(old(View()), order, end, inArrears)
        invariant left <= holdings.Keys == old(holdings).Keys
        invariant done == old(holdings).Keys - left && ListsOnce(order, done)
        decreases |left|
      {
        var name :| name in left;
        left := left - {name};
        ghost var before := View();
        FinalizeOneHoldings(before, name, end, inArrears);
        FinalizeHolding(name, end, inArrears);
        FinalizeLast(old(View()), order, name, end, inArrears);
        ListsNext(order, done, name);
        order, done := order + [name], done + {name};
      }
      assert done == holdings.Keys;
      if inArrears {
        StoreSummary(Summary(periodStart, end, 0, 0));
      } else {
        StoreSummary(Summary(periodStart, end, consumed, penalty));
      }
    }

    method FinalizeHolding(name: string, end: int, inArrears: bool)
      requires name in holdings
      modifies this`consumed, this`penalty, this`holdings
      ensures View() == FinalizeOne(old(View()), name, end, inArrears)
    {
      hide ApplyOverdraft;
      var h := holdings[name];
      if h.lastMeteredAt < end {
        if inArrears {
          holdings := holdings[name := h.(lastMeteredAt := end)];
        } else {
          var units := (end - h.lastMeteredAt) / SECOND;
          if units > 0 {
            AddUnits(name, units, end);
          }
        }
      }
    }

    /** Inserts a summary, or merges it into the one with the same start. */
    method StoreSummary(s: Summary)
      modifies this`summaries
      ensures summaries == Upsert(old(summaries), s)
    {
      hide Upsert;
      var i := 0;
      while i < |summaries| && summaries[i].start != s.start
        invariant 0 <= i <= |summaries| && summaries == old(summaries)
        invariant Upsert(summaries, s) == summaries[..i] + Upsert(summaries[i..], s)
      {
        UpsertPast(summaries, i, s);
        i := i + 1;
      }
      if i < |summaries| {
        UpsertHits(summaries, i, s);
        summaries := summaries[i := s.(penalty := summaries[i].penalty + s.penalty)];
      } else {
        UpsertEnd(summaries, s);
        summaries := summaries + [s];
      }
    }

    /** Stores an empty summary for every period but the last of those to advance. */
    method SkipPeriods(advance: int, period: int)
      requires advance >= 1
      modifies this`periodStart, this`summaries
      ensures periodStart == old(periodStart) + (advance - 1) * period
      ensures summaries == AddEmpty(old(summaries), old(periodStart), period, advance - 1)
    {
      hide AddEmpty, Upsert;
      var i := 1;
      while i < advance
        invariant 1 <= i <= advance
        invariant periodStart == old(periodStart) + (i - 1) * period
        invariant AddEmpty(old(summaries), old(periodStart), period, advance - 1)
                  == AddEmpty(summaries, periodStart, period, advance - i)
      {
        AddEmptyNext(summaries, periodStart, period, advance - i);
        assert (i - 1) * period + period == i * period;
        var periodEndsAt := periodStart + period;
        StoreSummary(Summary(periodStart, periodEndsAt, 0, 0));
        periodStart := periodEndsAt;
        i := i + 1;
      }
      AddEmptyNone(summaries, periodStart, period);
    }

    method CheckPeriodReset(now: int, inArrears: bool) returns (ghost order: seq<string>)
      requires config.periodSec > 0
      modifies this
      ensures View() == Reset(old(View()), order, now, inArrears)
      ensures old(periodEnd) <= now ==> ListsOnce(order, old(holdings).Keys)
      ensures holdings.Keys == old(holdings).Keys
    {
      hide Finalize, Upsert, PeriodsToAdvance, AddEmpty, Remetered;
      order := [];
      if now < periodEnd {
        return;
      }
      ghost var before := View();
      order := FinalizeCurrentPeriod(periodEnd, inArrears);
      FinalizeKeepsPeriod(before, order, before.periodEnd, inArrears);
      var period := config.periodSec * SECOND;
      var advance := PeriodsToAdvance((now - periodEnd) / SECOND, config.periodSec);
      BudgetPeriods.PeriodsBounds((now - periodEnd) / SECOND, config.periodSec);
      periodStart := periodEnd;
      SkipPeriods(advance, period);
      OpenPeriod(now, period, inArrears);
    }

    /** Opens the period that starts at `periodStart`: the overdraft and its surcharge are carried over. */
    method OpenPeriod(now: int, period: int, inArrears: bool)
      modifies this
      ensures View() == (var was := old(View());
                         var carry := if inArrears then 0 else was.currentOverdraft + was.penalty;
                         was.(periodEnd := was.periodStart + period, consumed := carry, carryOver := carry,
                              currentOverdraft := 0, penalty := 0, holdings := Remetered(was.holdings, now)))
      ensures holdings.Keys == old(holdings).Keys
    {
      periodEnd := periodStart + period;
      if inArrears {
        carryOver, consumed := 0, 0;
      } else {
        carryOver := currentOverdraft + penalty;
        consumed := carryOver;
      }
      currentOverdraft, penalty := 0, 0;
      holdings := map name | name in holdings :: holdings[name].(lastMeteredAt := now, unitsAccrued := 0);
    }

    /** One tick of the meter for this caller. */
    method MeterTick(now: int, inArrears: bool) returns (ghost resetOrder: seq<string>, ghost order: seq<string>)
      requires config.periodSec > 0
      modifies this
      ensures View() == Tick(old(View()), resetOrder, order, now, inArrears)
      ensures old(periodEnd) <= now ==> ListsOnce(resetOrder, old(holdings).Keys)
      ensures ListsOnce(order, old(holdings).Keys)
    {
      hide Reset, Meter;
      resetOrder := CheckPeriodReset(now, inArrears);
      order := MeterCaller(now, inArrears);
    }
  }

  lemma ListsNone()
    ensures ListsOnce([], {})
  {
  }

  lemma ListsNext(order: seq<string>, names: set<string>, name: string)
    requires ListsOnce(order, names) && name !in names
    ensures ListsOnce(order + [name], names + {name})
  {
    assert forall i | 0 <= i < |order| :: order[i] in order;
  }

  lemma MeterOneHoldings(rt: Runtime, name: string, now: int, inArrears: bool)
    ensures var t := MeterOne(rt, name, now, inArrears);
            && t.holdings.Keys == rt.holdings.Keys
            && (forall n | n in rt.holdings :: t.holdings[n].expiresAt == rt.holdings[n].expiresAt)
            && (name in rt.holdings && rt.holdings[name].expiresAt <= now ==> t == rt)
  {
    hide ApplyOverdraft;
  }

  lemma FinalizeOneHoldings(rt: Runtime, name: string, end: int, inArrears: bool)
    ensures FinalizeOne(rt, name, end, inArrears).holdings.Keys == rt.holdings.Keys
  {
    hide ApplyOverdraft;
  }

  lemma {:induction false} MeterLast(rt: Runtime, order: seq<string>, name: string, now: int, inArrears: bool)
    ensures MeterAll(rt, order + [name], now, inArrears) == MeterOne(MeterAll(rt, order, now, inArrears), name, now, inArrears)
    decreases |order|
  {
    hide MeterOne;
    if order == [] {
      assert order + [name] == [name];
      assert [name][1..] == [];
    } else {
      assert (order + [name])[1..] == order[1..] + [name];
      MeterLast(MeterOne(rt, order[0], now, inArrears), order[1..], name, now, inArrears);
    }
  }

  lemma {:induction false} FinalizeLast(rt: Runtime, order: seq<string>, name: string, end: int, inArrears: bool)
    ensures FinalizeAll(rt, order + [name], end, inArrears)
            == FinalizeOne(FinalizeAll(rt, order, end, inArrears), name, end, inArrears)
    decreases |order|
  {
    hide FinalizeOne;
    if order == [] {
      assert order + [name] == [name];
      assert [name][1..] == [];
    } else {
      assert (order + [name])[1..] == order[1..] + [name];
      FinalizeLast(FinalizeOne(rt, order[0], end, inArrears), order[1..], name, end, inArrears);
    }
  }

  lemma {:induction false} FinalizeKeepsPeriod(rt: Runtime, order: seq<string>, end: int, inArrears: bool)
    ensures Finalize(rt, order, end, inArrears).periodEnd == rt.periodEnd
  {
    hide Upsert;
    FinalizeAllKeepsEnd(rt, order, end, inArrears);
  }

  lemma {:induction false} FinalizeAllKeepsEnd(rt: Runtime, order: seq<string>, end: int, inArrears: bool)
    ensures FinalizeAll(rt, order, end, inArrears).periodEnd == rt.periodEnd
    decreases |order|
  {
    if order != [] {
      FinalizeAllKeepsEnd(FinalizeOne(rt, order[0], end, inArrears), order[1..], end, inArrears);
    }
  }

  lemma UpsertPast(summaries: seq<Summary>, i: nat, s: Summary)
    requires i < |summaries| && summaries[i].start != s.start
    ensures summaries[..i] + Upsert(summaries[i..], s) == summaries[..i + 1] + Upsert(summaries[i + 1..], s)
  {
    assert summaries[i..][1..] == summaries[i + 1..] && summaries[i..][0] == summaries[i];
    assert summaries[..i + 1] == summaries[..i] + [summaries[i]];
    var rest := Upsert(summaries[i + 1..], s);
    assert Upsert(summaries[i..], s) == [summaries[i]] + rest;
    hide Upsert;
    Regrouped(summaries[..i], summaries[i], rest);
  }

  lemma Regrouped(front: seq<Summary>, head: Summary, rest: seq<Summary>)
    ensures front + ([head] + rest) == front + [head] + rest
  {
  }

  lemma UpsertHits(summaries: seq<Summary>, i: nat, s: Summary)
    requires i < |summaries| && summaries[i].start == s.start
    ensures summaries[..i] + Upsert(summaries[i..], s) == summaries[i := s.(penalty := summaries[i].penalty + s.penalty)]
  {
    hide Upsert;
    var tail := summaries[i..];
    assert tail[0] == summaries[i];
    assert tail[1..] == summaries[i + 1..];
    UpsertHead(tail, s);
    Replaced(summaries, i, s.(penalty := summaries[i].penalty + s.penalty));
  }

  lemma UpsertHead(summaries: seq<Summary>, s: Summary)
    requires summaries != [] && summaries[0].start == s.start
    ensures Upsert(summaries, s) == [s.(penalty := summaries[0].penalty + s.penalty)] + summaries[1..]
  {
  }

  lemma Replaced(summaries: seq<Summary>, i: nat, s: Summary)
    requires i < |summaries|
    ensures summaries[..i] + ([s] + summaries[i + 1..]) == summaries[i := s]
  {
  }

  lemma UpsertEnd(summaries: seq<Summary>, s: Summary)
    ensures summaries[..|summaries|] + Upsert(summaries[|summaries|..], s) == summaries + [s]
  {
    assert summaries[|summaries|..] == [] && summaries[..|summaries|] == summaries;
  }

  lemma MeterNone(rt: Runtime, now: int, inArrears: bool)
    ensures MeterAll(rt, [], now, inArrears) == rt
  {
  }

  lemma ExpiredRemoved(rt: Runtime, gone: set<string>, now: int)
    requires forall name | name in rt.holdings :: name in gone <==> rt.holdings[name].expiresAt <= now
    ensures rt.(holdings := rt.holdings - gone) == DropExpired(rt, now)
  {
    assert rt.holdings - gone == DropExpired(rt, now).holdings;
  }

  lemma AddEmptyNext(summaries: seq<Summary>, start: int, period: int, n: nat)
    requires n > 0
    ensures AddEmpty(summaries, start, period, n)
            == AddEmpty(Upsert(summaries, Summary(start, start + period, 0, 0)), start + period, period, n - 1)
  {
  }

  lemma AddEmptyNone(summaries: seq<Summary>, start: int, period: int)
    ensures AddEmpty(summaries, start, period, 0) == summaries
  {
  }
}
