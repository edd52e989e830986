/** Period roll-over tiles time: one period's end is the next one's start, however late the check. */
module BudgetPeriods {
  import opened Clock
  import opened LockBudget
  import opened BudgetLaws

  lemma PeriodsBounds(elapsedSec: int, periodSec: int)
    requires periodSec > 0 && elapsedSec >= 0
    ensures var n := PeriodsToAdvance(elapsedSec, periodSec);
            && n >= 1 && (n - 1) * periodSec <= elapsedSec <= n * periodSec
            && (elapsedSec == n * periodSec <==> elapsedSec > 0 && elapsedSec % periodSec == 0)
  {
    if elapsedSec > periodSec {
      var q, r := elapsedSec / periodSec, elapsedSec % periodSec;
      assert elapsedSec == q * periodSec + r;
      assert q >= 1;
      assert (q + 1) * periodSec == q * periodSec + periodSec;
      assert (q - 1) * periodSec == q * periodSec - periodSec;
    } else {
      assert 1 * periodSec == periodSec && 0 * periodSec == 0;
      if elapsedSec == periodSec {
        assert elapsedSec % periodSec == 0;
      } else {
        SmallRemainder(elapsedSec, periodSec);
      }
    }
  }

  lemma SmallRemainder(a: int, d: int)
    requires 0 <= a < d
    ensures a % d == a
  {
  }

  /** Seconds since the old period's end. */
  function Elapsed(rt: Runtime, now: int): int {
    (now - rt.periodEnd) / SECOND
  }

  /** The new period starts no later than `now`, ends a whole number of periods after the old one,
      and `now` is less than a second past its end. It has not caught up exactly when the whole
      seconds elapsed are a positive multiple of the period. */
  lemma RollOver(rt: Runtime, order: seq<string>, now: int, inArrears: bool) returns (n: nat)
    requires rt.config.periodSec > 0 && rt.periodEnd <= now
    ensures var after := Reset(rt, order, now, inArrears);
            var period := rt.config.periodSec * SECOND;
            && n >= 1 && after.periodEnd == rt.periodEnd + n * period && after.periodStart == after.periodEnd - period
            && rt.periodEnd <= after.periodStart <= now < after.periodEnd + SECOND
            && (now >= after.periodEnd <==> Elapsed(rt, now) > 0 && Elapsed(rt, now) % rt.config.periodSec == 0)
  {
    hide Finalize, AddEmpty, PeriodsToAdvance, Remetered;
    var p := rt.config.periodSec;
    var e := Elapsed(rt, now);
    PeriodsBounds(e, p);
    n := PeriodsToAdvance(e, p);
    var period := p * SECOND;
    assert (n - 1) * period == n * period - period;
    assert (n - 1) * period >= 0;
    assert e * SECOND <= now - rt.periodEnd < e * SECOND + SECOND;
    assert n * period == n * p * SECOND;
    assert (n - 1) * period == (n - 1) * p * SECOND;
  }

  /** It does fall short: a check exactly one period late opens a period that is over already. */
  lemma OnePeriodLate(rt: Runtime, order: seq<string>, inArrears: bool)
    requires rt.config.periodSec > 0
    ensures var now := rt.periodEnd + rt.config.periodSec * SECOND;
            Reset(rt, order, now, inArrears).periodEnd == now
  {
    var p := rt.config.periodSec;
    var now := rt.periodEnd + p * SECOND;
    assert (now - rt.periodEnd) / SECOND == p;
    hide Finalize, AddEmpty, Remetered;
  }

  /** A second check at the same moment always catches up. */
  lemma SecondCheckCatchesUp(rt: Runtime, first: seq<string>, second: seq<string>, now: int, inArrears: bool, again: bool)
    requires rt.config.periodSec > 0
    ensures Reset(rt, first, now, inArrears).config.periodSec > 0
    ensures now < Reset(Reset(rt, first, now, inArrears), second, now, again).periodEnd
  {
    ResetKeepsConfig(rt, first, now, inArrears);
    hide Reset;
    var once := Reset(rt, first, now, inArrears);
    if rt.periodEnd <= now {
      var n := RollOver(rt, first, now, inArrears);
      if once.periodEnd <= now {
        var m := RollOver(once, second, now, again);
        assert Elapsed(once, now) == 0;
      } else {
        StillOpen(once, second, now, again);
      }
    } else {
      StillOpen(rt, first, now, inArrears);
      StillOpen(once, second, now, again);
    }
  }

  lemma StillOpen(rt: Runtime, order: seq<string>, now: int, inArrears: bool)
    requires rt.config.periodSec > 0 && now < rt.periodEnd
    ensures Reset(rt, order, now, inArrears) == rt
  {
  }

  lemma ResetKeepsConfig(rt: Runtime, order: seq<string>, now: int, inArrears: bool)
    requires rt.config.periodSec > 0
    ensures Reset(rt, order, now, inArrears).config == rt.config
  {
    hide AddEmpty, Upsert, PeriodsToAdvance, FinalizeAll;
    FinalizeKeepsConfig(rt, order, rt.periodEnd, inArrears);
  }

  // ---------------------------------------------------------------- tiles

  /** The summaries cover the span without gap or overlap. */
  ghost predicate Tiled(summaries: seq<Summary>, from: int, to: int) {
    if summaries == [] then from == to
    else summaries[0].start == from && from < summaries[0].end && Tiled(summaries[1..], summaries[0].end, to)
  }

  lemma {:induction false} TiledStarts(summaries: seq<Summary>, from: int, to: int)
    requires Tiled(summaries, from, to)
    ensures from <= to && forall i | 0 <= i < |summaries| :: from <= summaries[i].start < to
  {
    if summaries != [] {
      TiledStarts(summaries[1..], summaries[0].end, to);
      forall i | 0 <= i < |summaries| ensures from <= summaries[i].start < to {
        if i > 0 {
          assert summaries[i] == summaries[1..][i - 1];
        }
      }
    }
  }

  lemma {:induction false} TiledAppend(summaries: seq<Summary>, from: int, to: int, s: Summary)
    requires Tiled(summaries, from, to) && s.start == to && to < s.end
    ensures Tiled(summaries + [s], from, s.end)
  {
    if summaries == [] {
      assert summaries + [s] == [s];
      assert [s][1..] == [];
    } else {
      assert (summaries + [s])[1..] == summaries[1..] + [s];
      TiledAppend(summaries[1..], summaries[0].end, to, s);
    }
  }

  lemma {:induction false} UpsertAppends(summaries: seq<Summary>, s: Summary)
    requires forall i | 0 <= i < |summaries| :: summaries[i].start != s.start
    ensures Upsert(summaries, s) == summaries + [s]
  {
    if summaries == [] {
    } else {
      UpsertAppends(summaries[1..], s);
      assert [summaries[0]] + (summaries[1..] + [s]) == summaries + [s];
    }
  }

  /** Storing the next tile overwrites nothing. */
  lemma UpsertTile(summaries: seq<Summary>, from: int, to: int, s: Summary)
    requires Tiled(summaries, from, to) && s.start == to && to < s.end
    ensures Upsert(summaries, s) == summaries + [s] && Tiled(Upsert(summaries, s), from, s.end)
  {
    TiledStarts(summaries, from, to);
    UpsertAppends(summaries, s);
    TiledAppend(summaries, from, to, s);
  }

  lemma {:induction false} EmptyTiles(summaries: seq<Summary>, from: int, to: int, period: int, n: nat)
    requires Tiled(summaries, from, to) && period > 0
    ensures Tiled(AddEmpty(summaries, to, period, n), from, to + n * period)
    ensures |AddEmpty(summaries, to, period, n)| == |summaries| + n
    ensures summaries <= AddEmpty(summaries, to, period, n)
    ensures forall i | |summaries| <= i < |summaries| + n ::
              AddEmpty(summaries, to, period, n)[i] == EmptyPeriod(to, period, i - |summaries|)
    decreases n
  {
    hide Upsert, Tiled;
    if n > 0 {
      var s := Summary(to, to + period, 0, 0);
      UpsertTile(summaries, from, to, s);
      EmptyTiles(Upsert(summaries, s), from, to + period, period, n - 1);
      assert to + period + (n - 1) * period == to + n * period by {
        assert (n - 1) * period == n * period - period;
      }
      var all := AddEmpty(summaries, to, period, n);
      forall i | |summaries| <= i < |summaries| + n ensures all[i] == EmptyPeriod(to, period, i - |summaries|) {
        if i == |summaries| {
          assert all[i] == (summaries + [s])[i];
        } else {
          EmptyNext(to, period, i - |summaries| - 1);
        }
      }
      assert summaries <= summaries + [s];
    }
  }

  /** The summary of the `i`-th skipped period. */
  function EmptyPeriod(start: int, period: int, i: nat): Summary {
    Summary(start + i * period, start + (i + 1) * period, 0, 0)
  }

  lemma EmptyNext(start: int, period: int, i: nat)
    ensures EmptyPeriod(start + period, period, i) == EmptyPeriod(start, period, i + 1)
  {
    assert (i + 1) * period == i * period + period;
    assert (i + 2) * period == (i + 1) * period + period;
  }

  /** A caller whose periods so far cover everything from `epoch` to the current period's start. */
  ghost predicate PeriodsOk(rt: Runtime, epoch: int) {
    && rt.config.periodSec > 0 && rt.periodStart < rt.periodEnd
    && Tiled(rt.summaries, epoch, rt.periodStart)
  }

  /** The closed period and the skipped ones are stored one after the other, nothing is overwritten,
      and the skipped ones are empty. */
  lemma ResetTiles(rt: Runtime, order: seq<string>, now: int, inArrears: bool, epoch: int)
    requires PeriodsOk(rt, epoch)
    ensures var after := Reset(rt, order, now, inArrears);
            && PeriodsOk(after, epoch) && rt.summaries <= after.summaries
            && (rt.periodEnd <= now ==>
                  && |after.summaries| > |rt.summaries|
                  && after.summaries[|rt.summaries|].start == rt.periodStart && after.summaries[|rt.summaries|].end == rt.periodEnd
                  && forall i | |rt.summaries| < i < |after.summaries| ::
                       after.summaries[i] == EmptyPeriod(rt.periodEnd, rt.config.periodSec * SECOND, i - |rt.summaries| - 1))
  {
    hide Reset, Tiled, EmptyPeriod;
    if rt.periodEnd <= now {
      var n := RollOver(rt, order, now, inArrears);
      ResetKeepsConfig(rt, order, now, inArrears);
      var s, m := ResetStores(rt, order, now, inArrears);
      UpsertTile(rt.summaries, epoch, rt.periodStart, s);
      EmptyTiles(rt.summaries + [s], epoch, rt.periodEnd, rt.config.periodSec * SECOND, m);
    } else {
      StillOpen(rt, order, now, inArrears);
    }
  }

  /** What a roll-over stores: the closed period, then `m` empty ones. */
  lemma ResetStores(rt: Runtime, order: seq<string>, now: int, inArrears: bool) returns (s: Summary, m: nat)
    requires rt.config.periodSec > 0 && rt.periodEnd <= now
    ensures var after := Reset(rt, order, now, inArrears);
            var period := rt.config.periodSec * SECOND;
            && s.start == rt.periodStart && s.end == rt.periodEnd
            && after.summaries == AddEmpty(Upsert(rt.summaries, s), rt.periodEnd, period, m)
            && after.periodStart == rt.periodEnd + m * period
  {
    hide FinalizeAll, PeriodsToAdvance, Upsert, AddEmpty, Remetered;
    FinalizeKeepsConfig(rt, order, rt.periodEnd, inArrears);
    var f := FinalizeAll(rt, order, rt.periodEnd, inArrears);
    s := if inArrears then Summary(f.periodStart, rt.periodEnd, 0, 0) else Summary(f.periodStart, rt.periodEnd, f.consumed, f.penalty);
    PeriodsBounds(Elapsed(rt, now), rt.config.periodSec);
    m := PeriodsToAdvance(Elapsed(rt, now), rt.config.periodSec) - 1;
  }

  lemma StepTiles(rt: Runtime, op: BudgetOp, epoch: int)
    requires PeriodsOk(rt, epoch)
    ensures PeriodsOk(Step(rt, op), epoch) && rt.summaries <= Step(rt, op).summaries
  {
    hide MeterAll, Tiled, Reset, Accrue;
    match op
    case TickOp(resetOrder, order, now, inArrears) =>
      ResetTiles(rt, resetOrder, now, inArrears, epoch);
      MeterKeepsPeriod(Reset(rt, resetOrder, now, inArrears), order, now, inArrears);
    case StopOp(name, releasedAt) => StopKeepsPeriod(rt, name, releasedAt);
    case _ =>
  }

  lemma StopKeepsPeriod(rt: Runtime, name: string, releasedAt: int)
    ensures var t := Stop(rt, name, releasedAt);
            t.config == rt.config && t.periodStart == rt.periodStart && t.periodEnd == rt.periodEnd && t.summaries == rt.summaries
  {
    hide ApplyOverdraft;
  }

  /** Over any run the stored periods tile the time from the first period's start to the current
      one's, and what has been stored is never changed. */
  lemma {:induction false} RunTiles(rt: Runtime, ops: seq<BudgetOp>, epoch: int)
    requires PeriodsOk(rt, epoch)
    ensures PeriodsOk(RunOf(rt, ops), epoch) && rt.summaries <= RunOf(rt, ops).summaries
    decreases |ops|
  {
    hide Step, Tiled;
    if ops != [] {
      StepKeepsConfig(rt, ops[0]);
      StepTiles(rt, ops[0], epoch);
      RunTiles(Step(rt, ops[0]), ops[1..], epoch);
    }
  }
}
