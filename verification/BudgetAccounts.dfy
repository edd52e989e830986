/** Every unit that a caller consumes in a period belongs to a hold. */
module BudgetAccounts {
  import opened Sums
  import opened LockBudget
  import opened BudgetLaws
  import opened BudgetMeaning

  function Accruals(holdings: map<string, Holding>): map<string, int> {
    map name | name in holdings :: holdings[name].unitsAccrued
  }

  /** What the open holds have cost. */
  ghost function Accrued(holdings: map<string, Holding>): int {
    Sum(Accruals(holdings))
  }

  lemma AccruedUpdate(holdings: map<string, Holding>, name: string, h: Holding)
    ensures Accrued(holdings[name := h])
            == Accrued(holdings) - (if name in holdings then holdings[name].unitsAccrued else 0) + h.unitsAccrued
  {
    SumUpdate(Accruals(holdings), name, h.unitsAccrued);
    assert Accruals(holdings[name := h]) == Accruals(holdings)[name := h.unitsAccrued];
  }

  lemma AccruedRemove(holdings: map<string, Holding>, name: string)
    requires name in holdings
    ensures Accrued(holdings - {name}) == Accrued(holdings) - holdings[name].unitsAccrued
  {
    SumTakeOut(Accruals(holdings), name);
    assert Accruals(holdings - {name}) == Accruals(holdings) - {name};
  }

  /** Two states in which as many units are unaccounted for by the open holds. */
  ghost predicate SameLoose(rt: Runtime, t: Runtime) {
    t.consumed - Accrued(t.holdings) == rt.consumed - Accrued(rt.holdings)
  }

  lemma MeterOneLoose(rt: Runtime, name: string, now: int, inArrears: bool)
    ensures SameLoose(rt, MeterOne(rt, name, now, inArrears))
  {
    hide ApplyOverdraft, Accrued;
    if name in rt.holdings {
      AccruedUpdate(rt.holdings, name, MeterOne(rt, name, now, inArrears).holdings[name]);
    }
  }

  lemma {:induction false} MeterAllLoose(rt: Runtime, order: seq<string>, now: int, inArrears: bool)
    ensures SameLoose(rt, MeterAll(rt, order, now, inArrears))
    decreases |order|
  {
    hide MeterOne, Accrued;
    if order != [] {
      MeterOneLoose(rt, order[0], now, inArrears);
      MeterAllLoose(MeterOne(rt, order[0], now, inArrears), order[1..], now, inArrears);
    }
  }

  /** What the holds that end in a step have cost. */
  ghost function Ended(rt: Runtime, op: BudgetOp): int {
    match op
    case TickOp(_, _, now, _) => Accrued(map n | n in rt.holdings && rt.holdings[n].expiresAt <= now :: rt.holdings[n])
    case StartOp(name, _, _) => if name in rt.holdings then rt.holdings[name].unitsAccrued else 0
    case RenewOp(_, _) => 0
    case StopOp(name, releasedAt) => StopUnits(rt, name, releasedAt)
  }

  ghost function AllEnded(rt: Runtime, ops: seq<BudgetOp>): int
    requires rt.config.periodSec > 0
    decreases |ops|
  {
    if ops == [] then 0
    else
      StepKeepsConfig(rt, ops[0]);
      Ended(rt, ops[0]) + AllEnded(Step(rt, ops[0]), ops[1..])
  }

  /** Splitting the holds in two splits what they have cost. */
  lemma {:induction false} AccruedSplit(holdings: map<string, Holding>, now: int)
    ensures Accrued(holdings) == Accrued(Unexpired(holdings, now))
                                 + Accrued(map n | n in holdings && holdings[n].expiresAt <= now :: holdings[n])
    decreases |holdings|
  {
    hide Accrued;
    var live := Unexpired(holdings, now);
    var gone := map n | n in holdings && holdings[n].expiresAt <= now :: holdings[n];
    if holdings == map[] {
      assert live == map[] && gone == map[];
      NothingAccrued();
    } else {
      var name :| name in holdings;
      var rest := holdings - {name};
      AccruedRemove(holdings, name);
      AccruedSplit(rest, now);
      if holdings[name].expiresAt > now {
        AccruedRemove(live, name);
        assert live - {name} == Unexpired(rest, now);
        assert gone == map n | n in rest && rest[n].expiresAt <= now :: rest[n];
      } else {
        AccruedRemove(gone, name);
        assert live == Unexpired(rest, now);
        assert gone - {name} == map n | n in rest && rest[n].expiresAt <= now :: rest[n];
      }
    }
  }

  lemma NothingAccrued()
    ensures Accrued(map[]) == 0
  {
  }

  /** Ended holds are not metered. */
  lemma {:induction false} EndedUntouched(rt: Runtime, order: seq<string>, now: int, inArrears: bool)
    ensures var t := MeterAll(rt, order, now, inArrears);
            && t.holdings.Keys == rt.holdings.Keys
            && (forall n | n in rt.holdings :: t.holdings[n].expiresAt == rt.holdings[n].expiresAt)
            && (forall n | n in rt.holdings && rt.holdings[n].expiresAt <= now :: t.holdings[n] == rt.holdings[n])
    decreases |order|
  {
    hide ApplyOverdraft;
    if order != [] {
      EndedUntouched(MeterOne(rt, order[0], now, inArrears), order[1..], now, inArrears);
    }
  }

  lemma StepEnds(rt: Runtime, op: BudgetOp)
    requires rt.config.periodSec > 0 && (op.TickOp? ==> op.now < rt.periodEnd)
    ensures var t := Step(rt, op);
            t.consumed - Accrued(t.holdings) == rt.consumed - Accrued(rt.holdings) + Ended(rt, op)
  {
    hide MeterAll, ApplyOverdraft, Accrued, Stop, StopUnits;
    match op
    case TickOp(_, order, now, inArrears) =>
      var m := MeterAll(rt, order, now, inArrears);
      MeterAllLoose(rt, order, now, inArrears);
      EndedUntouched(rt, order, now, inArrears);
      AccruedSplit(m.holdings, now);
      assert (map n | n in m.holdings && m.holdings[n].expiresAt <= now :: m.holdings[n])
             == map n | n in rt.holdings && rt.holdings[n].expiresAt <= now :: rt.holdings[n];
      assert Unexpired(m.holdings, now) == DropExpired(m, now).holdings;
    case StartOp(name, _, _) => AccruedUpdate(rt.holdings, name, Step(rt, op).holdings[name]);
    case RenewOp(name, _) =>
      if name in rt.holdings {
        AccruedUpdate(rt.holdings, name, Step(rt, op).holdings[name]);
      }
    case StopOp(name, releasedAt) => StopEnds(rt, name, releasedAt);
  }

  lemma StopEnds(rt: Runtime, name: string, releasedAt: int)
    ensures var t := Stop(rt, name, releasedAt);
            t.consumed - Accrued(t.holdings) == rt.consumed - Accrued(rt.holdings) + StopUnits(rt, name, releasedAt)
  {
    hide ApplyOverdraft, Accrued;
    if name in rt.holdings {
      StopExact(rt, name, releasedAt);
      AccruedRemove(rt.holdings, name);
    }
  }

  /** Inside a period every unit consumed is one that the period started with, or that an open hold has
      cost, or that a hold that has ended has cost. */
  lemma {:induction false} EveryUnitOnAHold(rt: Runtime, ops: seq<BudgetOp>)
    requires rt.config.periodSec > 0 && InPeriod(ops, rt.periodEnd)
    ensures var t := RunOf(rt, ops);
            t.consumed == rt.consumed + (Accrued(t.holdings) - Accrued(rt.holdings)) + AllEnded(rt, ops)
    decreases |ops|
  {
    hide Step, Ended, Accrued;
    if ops != [] {
      StepKeepsConfig(rt, ops[0]);
      StepEnds(rt, ops[0]);
      StepSamePeriod(rt, ops[0]);
      EveryUnitOnAHold(Step(rt, ops[0]), ops[1..]);
    }
  }

  lemma StepSamePeriod(rt: Runtime, op: BudgetOp)
    requires rt.config.periodSec > 0 && (op.TickOp? ==> op.now < rt.periodEnd)
    ensures Step(rt, op).periodEnd == rt.periodEnd
  {
    hide MeterAll, ApplyOverdraft;
    if op.TickOp? {
      MeterKeepsPeriod(rt, op.order, op.now, op.inArrears);
    }
  }

  /** And closing a period puts all it charges on the holds: what remains is what has ended. */
  lemma {:induction false} CloseLoose(rt: Runtime, order: seq<string>, end: int, inArrears: bool)
    ensures SameLoose(rt, FinalizeAll(rt, order, end, inArrears))
    decreases |order|
  {
    hide FinalizeOne, Accrued;
    if order != [] {
      var t := FinalizeOne(rt, order[0], end, inArrears);
      CloseOneLoose(rt, order[0], end, inArrears);
      CloseLoose(t, order[1..], end, inArrears);
    }
  }

  lemma CloseOneLoose(rt: Runtime, name: string, end: int, inArrears: bool)
    ensures SameLoose(rt, FinalizeOne(rt, name, end, inArrears))
  {
    hide ApplyOverdraft, Accrued;
    if name in rt.holdings {
      AccruedUpdate(rt.holdings, name, FinalizeOne(rt, name, end, inArrears).holdings[name]);
    }
  }
}
