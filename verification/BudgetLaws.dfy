/** What metering charges, however the ticks fall: without overdraft the rounded-up duration of the
    hold; with overdraft a surcharge that depends on the split only through its odd parts. */
module BudgetLaws {
  import opened Clock
  import opened LockBudget

  datatype BudgetOp =
    | TickOp(resetOrder: seq<string>, order: seq<string>, now: int, inArrears: bool)
    | StartOp(name: string, acquiredAt: int, expiresAt: int)
    | RenewOp(name: string, expiresAt: int)
    | StopOp(name: string, releasedAt: int)

  function Step(rt: Runtime, op: BudgetOp): Runtime
    requires rt.config.periodSec > 0
  {
    match op
    case TickOp(resetOrder, order, now, inArrears) => Tick(rt, resetOrder, order, now, inArrears)
    case StartOp(name, acquiredAt, expiresAt) => Start(rt, name, acquiredAt, expiresAt)
    case RenewOp(name, expiresAt) => Renew(rt, name, expiresAt)
    case StopOp(name, releasedAt) => Stop(rt, name, releasedAt)
  }

  lemma {:induction false} FinalizeKeepsConfig(rt: Runtime, order: seq<string>, end: int, inArrears: bool)
    ensures FinalizeAll(rt, order, end, inArrears).config == rt.config
    ensures FinalizeAll(rt, order, end, inArrears).periodStart == rt.periodStart
    ensures FinalizeAll(rt, order, end, inArrears).summaries == rt.summaries
    decreases |order|
  {
    if order != [] {
      FinalizeKeepsConfig(FinalizeOne(rt, order[0], end, inArrears), order[1..], end, inArrears);
    }
  }

  lemma {:induction false} MeterKeepsPeriod(rt: Runtime, order: seq<string>, now: int, inArrears: bool)
    ensures var t := MeterAll(rt, order, now, inArrears);
            t.config == rt.config && t.periodStart == rt.periodStart && t.periodEnd == rt.periodEnd && t.summaries == rt.summaries
    decreases |order|
  {
    if order != [] {
      MeterKeepsPeriod(MeterOne(rt, order[0], now, inArrears), order[1..], now, inArrears);
    }
  }

  lemma StepKeepsConfig(rt: Runtime, op: BudgetOp)
    requires rt.config.periodSec > 0
    ensures Step(rt, op).config == rt.config
  {
    hide MeterAll, FinalizeAll, Upsert, AddEmpty, PeriodsToAdvance, ApplyOverdraft;
    if op.TickOp? {
      FinalizeKeepsConfig(rt, op.resetOrder, rt.periodEnd, op.inArrears);
      MeterKeepsPeriod(Reset(rt, op.resetOrder, op.now, op.inArrears), op.order, op.now, op.inArrears);
    }
  }

  function RunOf(rt: Runtime, ops: seq<BudgetOp>): Runtime
    requires rt.config.periodSec > 0
    decreases |ops|
  {
    if ops == [] then rt
    else
      StepKeepsConfig(rt, ops[0]);
      RunOf(Step(rt, ops[0]), ops[1..])
  }

  // ---------------------------------------------------------------- any schedule, no overdraft

  /** The hold has been charged exactly the whole seconds up to where it was last metered. */
  predicate ChargedSoFar(rt: Runtime, name: string, acquiredAt: int, releasedAt: int) {
    && name in rt.holdings && rt.config.overdraftLimit <= 0
    && var h := rt.holdings[name];
       h.unitsAccrued >= 0 && h.lastMeteredAt == acquiredAt + h.unitsAccrued * SECOND
       && (h.lastMeteredAt <= releasedAt || h.unitsAccrued == 0)
  }

  /** While the hold is open: ticks inside the period, before its release and its expiry, out of
      arrears; nobody else stops it or starts it anew. */
  predicate Undisturbed(rt: Runtime, op: BudgetOp, name: string, releasedAt: int) {
    match op
    case TickOp(_, _, now, inArrears) =>
      now < rt.periodEnd && now <= releasedAt && !inArrears && name in rt.holdings && now < rt.holdings[name].expiresAt
    case StartOp(other, _, _) => other != name
    case StopOp(other, _) => other != name
    case RenewOp(_, _) => true
  }

  predicate AllUndisturbed(rt: Runtime, ops: seq<BudgetOp>, name: string, releasedAt: int)
    requires rt.config.periodSec > 0
    decreases |ops|
  {
    ops == [] || (&& Undisturbed(rt, ops[0], name, releasedAt)
                  && (StepKeepsConfig(rt, ops[0]); AllUndisturbed(Step(rt, ops[0]), ops[1..], name, releasedAt)))
  }

  lemma MeterOneCharges(rt: Runtime, n: string, name: string, now: int, acquiredAt: int, releasedAt: int)
    requires ChargedSoFar(rt, name, acquiredAt, releasedAt) && now <= releasedAt
    ensures ChargedSoFar(MeterOne(rt, n, now, false), name, acquiredAt, releasedAt)
    ensures MeterOne(rt, n, now, false).holdings[name].expiresAt == rt.holdings[name].expiresAt
  {
  }

  lemma {:induction false} MeterAllCharges(rt: Runtime, order: seq<string>, name: string, now: int, acquiredAt: int, releasedAt: int)
    requires ChargedSoFar(rt, name, acquiredAt, releasedAt) && now <= releasedAt
    ensures ChargedSoFar(MeterAll(rt, order, now, false), name, acquiredAt, releasedAt)
    ensures MeterAll(rt, order, now, false).holdings[name].expiresAt == rt.holdings[name].expiresAt
    decreases |order|
  {
    hide MeterOne, ChargedSoFar;
    if order != [] {
      MeterOneCharges(rt, order[0], name, now, acquiredAt, releasedAt);
      MeterAllCharges(MeterOne(rt, order[0], now, false), order[1..], name, now, acquiredAt, releasedAt);
    }
  }

  lemma StepCharges(rt: Runtime, op: BudgetOp, name: string, acquiredAt: int, releasedAt: int)
    requires rt.config.periodSec > 0
    requires ChargedSoFar(rt, name, acquiredAt, releasedAt) && Undisturbed(rt, op, name, releasedAt)
    ensures ChargedSoFar(Step(rt, op), name, acquiredAt, releasedAt)
  {
    hide MeterAll;
    if op.TickOp? {
      MeterAllCharges(rt, op.order, name, op.now, acquiredAt, releasedAt);
    }
  }

  lemma {:induction false} RunCharges(rt: Runtime, ops: seq<BudgetOp>, name: string, acquiredAt: int, releasedAt: int)
    requires rt.config.periodSec > 0
    requires ChargedSoFar(rt, name, acquiredAt, releasedAt) && AllUndisturbed(rt, ops, name, releasedAt)
    ensures ChargedSoFar(RunOf(rt, ops), name, acquiredAt, releasedAt)
    decreases |ops|
  {
    hide Step, ChargedSoFar, Undisturbed;
    if ops != [] {
      StepKeepsConfig(rt, ops[0]);
      StepCharges(rt, ops[0], name, acquiredAt, releasedAt);
      RunCharges(Step(rt, ops[0]), ops[1..], name, acquiredAt, releasedAt);
    }
  }

  lemma SecondsUpShift(duration: int, seconds: int)
    ensures SecondsUp(duration - seconds * SECOND) == SecondsUp(duration) - seconds
  {
  }

  /** Metering does not depend on the schedule: whatever ticks fall between, and whatever happens to
      the other holds, a hold costs its duration inside the period in seconds, rounded up once. */
  lemma ScheduleIndependent(rt: Runtime, name: string, acquiredAt: int, expiresAt: int, ops: seq<BudgetOp>, releasedAt: int)
    requires rt.config.periodSec > 0 && rt.config.overdraftLimit <= 0
    requires rt.periodStart <= releasedAt && acquiredAt <= releasedAt
    requires AllUndisturbed(Start(rt, name, acquiredAt, expiresAt), ops, name, releasedAt)
    ensures StopUnits(RunOf(Start(rt, name, acquiredAt, expiresAt), ops), name, releasedAt)
            == (releasedAt - (if acquiredAt < rt.periodStart then rt.periodStart else acquiredAt) + SECOND - 1) / SECOND
  {
    var from := if acquiredAt < rt.periodStart then rt.periodStart else acquiredAt;
    assert SecondsUp(releasedAt - from) == (releasedAt - from + SECOND - 1) / SECOND;
    hide RunOf, AllUndisturbed, SecondsUp;
    var open := Start(rt, name, acquiredAt, expiresAt);
    RunCharges(open, ops, name, from, releasedAt);
    var units := RunOf(open, ops).holdings[name].unitsAccrued;
    SecondsUpShift(releasedAt - from, units);
    SecondsUpNone();
  }

  lemma SecondsUpNone()
    ensures SecondsUp(0) == 0
  {
  }

  // ---------------------------------------------------------------- the surcharge of a split

  /** Charges one part after the other: the consumption reached and the surcharge added up. */
  function ChargeAll(c: Config, consumed: int, parts: seq<int>): (int, int)
    decreases |parts|
  {
    if parts == [] then (consumed, 0)
    else
      var cost := ApplyOverdraft(c, consumed, parts[0]);
      var rest := ChargeAll(c, consumed + cost.0, parts[1..]);
      (rest.0, cost.1 + rest.1)
  }

  function Units(parts: seq<int>): int {
    if parts == [] then 0 else parts[0] + Units(parts[1..])
  }

  ghost predicate NonNegative(parts: seq<int>) {
    forall i | 0 <= i < |parts| :: parts[i] >= 0
  }

  /** The raw units beyond the limit. */
  function Overdrawn(c: Config, consumed: int, units: int): int {
    var from := if consumed < c.budgetLimit then c.budgetLimit else consumed;
    if consumed + units > from then consumed + units - from else 0
  }

  /** How many of the parts overdraw by an odd number of units. */
  function OddParts(c: Config, consumed: int, parts: seq<int>): nat
    decreases |parts|
  {
    if parts == [] then 0
    else Overdrawn(c, consumed, parts[0]) % 2 + OddParts(c, consumed + ApplyOverdraft(c, consumed, parts[0]).0, parts[1..])
  }

  lemma {:induction false} UnitsNonNegative(parts: seq<int>)
    requires NonNegative(parts)
    ensures Units(parts) >= 0
  {
    if parts != [] {
      UnitsNonNegative(parts[1..]);
    }
  }

  lemma OnePart(c: Config, consumed: int, units: int)
    requires c.overdraftLimit > 0 && units >= 0
    ensures var cost := ApplyOverdraft(c, consumed, units);
            cost.0 == units + cost.1 && 2 * cost.1 == Overdrawn(c, consumed, units) + Overdrawn(c, consumed, units) % 2
  {
  }

  lemma OverdrawnAdds(c: Config, consumed: int, first: int, rest: int)
    requires c.overdraftLimit > 0 && first >= 0 && rest >= 0
    ensures Overdrawn(c, consumed, first + rest)
            == Overdrawn(c, consumed, first) + Overdrawn(c, consumed + ApplyOverdraft(c, consumed, first).0, rest)
  {
  }

  /** However the raw units are split, the same part of them is overdrawn; the surcharge is half of
      it, with half a unit more for every part that overdraws by an odd number. */
  lemma {:induction false} SplitCost(c: Config, consumed: int, parts: seq<int>)
    requires c.overdraftLimit > 0 && NonNegative(parts)
    ensures var (reached, surcharge) := ChargeAll(c, consumed, parts);
            && reached == consumed + Units(parts) + surcharge
            && 2 * surcharge == Overdrawn(c, consumed, Units(parts)) + OddParts(c, consumed, parts)
    ensures OddParts(c, consumed, parts) <= |parts|
    decreases |parts|
  {
    hide ApplyOverdraft, Overdrawn;
    if parts == [] {
      NothingOverdrawn(c, consumed);
    } else {
      var cost := ApplyOverdraft(c, consumed, parts[0]);
      OnePart(c, consumed, parts[0]);
      UnitsNonNegative(parts[1..]);
      OverdrawnAdds(c, consumed, parts[0], Units(parts[1..]));
      SplitCost(c, consumed + cost.0, parts[1..]);
    }
  }

  lemma NothingOverdrawn(c: Config, consumed: int)
    ensures Overdrawn(c, consumed, 0) == 0
  {
  }

  /** The surcharge lies between that of a single charge and half a unit more for every part; it is
      that of a single charge exactly when at most one part overdraws by an odd number. */
  lemma SplitBounds(c: Config, consumed: int, parts: seq<int>)
    requires c.overdraftLimit > 0 && NonNegative(parts)
    ensures var surcharge := ChargeAll(c, consumed, parts).1;
            var overdrawn := Overdrawn(c, consumed, Units(parts));
            && Surcharge(overdrawn) <= surcharge <= (overdrawn + |parts|) / 2
            && (surcharge == ApplyOverdraft(c, consumed, Units(parts)).1 <==> OddParts(c, consumed, parts) <= 1)
  {
    SplitCost(c, consumed, parts);
    UnitsNonNegative(parts);
    OnePart(c, consumed, Units(parts));
    hide ChargeAll, OddParts, Units;
  }

  /** Without overdraft there is no surcharge. */
  lemma {:induction false} NoSurcharge(c: Config, consumed: int, parts: seq<int>)
    requires c.overdraftLimit <= 0
    ensures ChargeAll(c, consumed, parts) == (consumed + Units(parts), 0)
    decreases |parts|
  {
    if parts != [] {
      NoSurcharge(c, consumed + parts[0], parts[1..]);
    }
  }

  /** Two single overdrawn units cost one unit more than two at once. */
  lemma SplitMatters()
    ensures var c := Config(10, 60, 5);
            ChargeAll(c, 10, [2]) == (13, 1) && ChargeAll(c, 10, [1, 1]) == (14, 2)
  {
    var c := Config(10, 60, 5);
    assert [1, 1][1..] == [1];
    assert ChargeAll(c, 12, [1]) == (14, 1) by {
      assert ChargeAll(c, 14, [1][1..]) == (14, 0);
    }
    assert ChargeAll(c, 13, [2][1..]) == (13, 0);
  }

  // ---------------------------------------------------------------- what a run charges

  /** The raw units that one tick charges, in order. */
  function MeterParts(rt: Runtime, order: seq<string>, now: int): seq<int>
    decreases |order|
  {
    if order == [] then []
    else MeterPart(rt, order[0], now) + MeterParts(MeterOne(rt, order[0], now, false), order[1..], now)
  }

  function MeterPart(rt: Runtime, name: string, now: int): seq<int> {
    if name !in rt.holdings || rt.holdings[name].expiresAt <= now then []
    else
      var units := (now - rt.holdings[name].lastMeteredAt) / SECOND;
      if rt.holdings[name].lastMeteredAt < now && units > 0 then [units] else []
  }

  function StopPart(rt: Runtime, name: string, releasedAt: int): seq<int> {
    if name in rt.holdings && rt.holdings[name].lastMeteredAt < releasedAt
    then [SecondsUp(releasedAt - rt.holdings[name].lastMeteredAt)] else []
  }

  function Parts(rt: Runtime, op: BudgetOp): seq<int> {
    match op
    case TickOp(_, order, now, _) => MeterParts(rt, order, now)
    case StopOp(name, releasedAt) => StopPart(rt, name, releasedAt)
    case _ => []
  }

  function AllParts(rt: Runtime, ops: seq<BudgetOp>): seq<int>
    requires rt.config.periodSec > 0
    decreases |ops|
  {
    if ops == [] then []
    else
      StepKeepsConfig(rt, ops[0]);
      Parts(rt, ops[0]) + AllParts(Step(rt, ops[0]), ops[1..])
  }

  /** Ticks fall inside the period and out of arrears. */
  predicate InPeriod(ops: seq<BudgetOp>, periodEnd: int) {
    forall i | 0 <= i < |ops| && ops[i].TickOp? :: ops[i].now < periodEnd && !ops[i].inArrears
  }

  /** Consumption and surcharge have grown as if these parts had been charged one by one. */
  ghost predicate ChargedFor(rt: Runtime, after: Runtime, parts: seq<int>) {
    && after.config == rt.config && after.periodEnd == rt.periodEnd
    && ChargeAll(rt.config, rt.consumed, parts) == (after.consumed, after.penalty - rt.penalty)
  }

  lemma {:induction false} ChargeAppends(c: Config, consumed: int, a: seq<int>, b: seq<int>)
    ensures var first := ChargeAll(c, consumed, a);
            var second := ChargeAll(c, first.0, b);
            ChargeAll(c, consumed, a + b) == (second.0, first.1 + second.1)
    decreases |a|
  {
    hide ApplyOverdraft;
    if a == [] {
      assert a + b == b;
    } else {
      assert (a + b)[1..] == a[1..] + b;
      ChargeAppends(c, consumed + ApplyOverdraft(c, consumed, a[0]).0, a[1..], b);
    }
  }

  lemma ChargedTwice(rt: Runtime, mid: Runtime, after: Runtime, a: seq<int>, b: seq<int>)
    requires ChargedFor(rt, mid, a) && ChargedFor(mid, after, b)
    ensures ChargedFor(rt, after, a + b)
  {
    hide ChargeAll;
    ChargeAppends(rt.config, rt.consumed, a, b);
  }

  lemma ChargedOnce(rt: Runtime, name: string, units: int, at: int)
    requires name in rt.holdings
    ensures ChargedFor(rt, NoteOverdraft(Accrue(rt, name, units, at)), [units])
  {
    hide ApplyOverdraft;
    var cost := ApplyOverdraft(rt.config, rt.consumed, units);
    assert [units][1..] == [];
    assert ChargeAll(rt.config, rt.consumed + cost.0, [units][1..]) == (rt.consumed + cost.0, 0);
  }

  lemma {:induction false} MeterChargesParts(rt: Runtime, order: seq<string>, now: int)
    ensures ChargedFor(rt, MeterAll(rt, order, now, false), MeterParts(rt, order, now))
    decreases |order|
  {
    hide ChargedFor, Accrue, NoteOverdraft;
    if order == [] {
      ChargedNothing(rt);
    } else {
      var name := order[0];
      var next := MeterOne(rt, name, now, false);
      assert ChargedFor(rt, next, MeterPart(rt, name, now)) by {
        ChargedNothing(rt);
        if name in rt.holdings {
          var units := (now - rt.holdings[name].lastMeteredAt) / SECOND;
          ChargedOnce(rt, name, units, rt.holdings[name].lastMeteredAt + units * SECOND);
        }
      }
      MeterChargesParts(next, order[1..], now);
      ChargedTwice(rt, next, MeterAll(next, order[1..], now, false), MeterPart(rt, name, now), MeterParts(next, order[1..], now));
    }
  }

  lemma ChargedNothing(rt: Runtime)
    ensures ChargedFor(rt, rt, [])
  {
  }

  lemma StepChargesParts(rt: Runtime, op: BudgetOp)
    requires rt.config.periodSec > 0
    requires op.TickOp? ==> op.now < rt.periodEnd && !op.inArrears
    ensures ChargedFor(rt, Step(rt, op), Parts(rt, op))
  {
    hide MeterAll, MeterParts, Accrue, NoteOverdraft, ApplyOverdraft;
    ChargedNothing(rt);
    match op
    case TickOp(_, order, now, _) => MeterChargesParts(rt, order, now);
    case StopOp(name, releasedAt) =>
      if name in rt.holdings {
        var last := rt.holdings[name].lastMeteredAt;
        ChargedOnce(rt, name, SecondsUp(releasedAt - last), releasedAt);
      }
    case _ =>
  }

  /** Inside one period a run's consumption and surcharge are those of the raw units it charged, so
      the laws of split charges hold of every schedule of ticks, starts and stops. */
  lemma {:induction false} RunChargesParts(rt: Runtime, ops: seq<BudgetOp>)
    requires rt.config.periodSec > 0 && InPeriod(ops, rt.periodEnd)
    ensures ChargedFor(rt, RunOf(rt, ops), AllParts(rt, ops))
    decreases |ops|
  {
    hide ChargedFor, Step, Parts;
    if ops == [] {
      ChargedNothing(rt);
    } else {
      StepKeepsConfig(rt, ops[0]);
      var next := Step(rt, ops[0]);
      StepChargesParts(rt, ops[0]);
      assert next.periodEnd == rt.periodEnd by {
        ChargedSamePeriod(rt, next, Parts(rt, ops[0]));
      }
      RunChargesParts(next, ops[1..]);
      ChargedTwice(rt, next, RunOf(next, ops[1..]), Parts(rt, ops[0]), AllParts(next, ops[1..]));
    }
  }

  lemma ChargedSamePeriod(rt: Runtime, after: Runtime, parts: seq<int>)
    requires ChargedFor(rt, after, parts)
    ensures after.periodEnd == rt.periodEnd
  {
  }

  lemma {:induction false} MeterPartsNonNegative(rt: Runtime, order: seq<string>, now: int)
    ensures NonNegative(MeterParts(rt, order, now))
    decreases |order|
  {
    hide MeterOne;
    if order != [] {
      MeterPartsNonNegative(MeterOne(rt, order[0], now, false), order[1..], now);
    }
  }

  lemma {:induction false} AllPartsNonNegative(rt: Runtime, ops: seq<BudgetOp>)
    requires rt.config.periodSec > 0
    ensures NonNegative(AllParts(rt, ops))
    decreases |ops|
  {
    hide Step, MeterParts;
    if ops != [] {
      StepKeepsConfig(rt, ops[0]);
      if ops[0].TickOp? {
        MeterPartsNonNegative(rt, ops[0].order, ops[0].now);
      }
      assert NonNegative(Parts(rt, ops[0]));
      AllPartsNonNegative(Step(rt, ops[0]), ops[1..]);
    }
  }

  /** With overdraft, over any run inside one period: consumption grows by the raw units and the
      surcharge; the surcharge is at least half of the overdrawn units and at most half a unit more
      for every charge. */
  lemma RunSurcharge(rt: Runtime, ops: seq<BudgetOp>)
    requires rt.config.periodSec > 0 && rt.config.overdraftLimit > 0 && InPeriod(ops, rt.periodEnd)
    ensures var parts := AllParts(rt, ops);
            var overdrawn := Overdrawn(rt.config, rt.consumed, Units(parts));
            var surcharge := RunOf(rt, ops).penalty - rt.penalty;
            && RunOf(rt, ops).consumed == rt.consumed + Units(parts) + surcharge
            && Surcharge(overdrawn) <= surcharge <= (overdrawn + |parts|) / 2
  {
    hide AllParts, RunOf, Overdrawn, Units, ChargeAll;
    RunChargesParts(rt, ops);
    AllPartsNonNegative(rt, ops);
    SplitCost(rt.config, rt.consumed, AllParts(rt, ops));
    SplitBounds(rt.config, rt.consumed, AllParts(rt, ops));
  }
}
