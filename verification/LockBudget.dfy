/** Budget metering of lock holders, after internal/lockbudget/manager.go: one caller's running
    period, its holdings, the overdraft surcharge and the period roll-over. */
module LockBudget {
  import opened Clock

  datatype Config = Config(budgetLimit: int, periodSec: int, overdraftLimit: int)
  datatype Holding = Holding(expiresAt: int, lastMeteredAt: int, unitsAccrued: int)
  datatype Summary = Summary(start: int, end: int, consumed: int, penalty: int)

  datatype Runtime = Runtime(
    config: Config,
    periodStart: int,
    periodEnd: int,
    consumed: int,
    currentOverdraft: int,
    penalty: int,
    carryOver: int,
    holdings: map<string, Holding>,
    summaries: seq<Summary>)

  // ---------------------------------------------------------------- the surcharge

  /** Half of the overdrawn units, rounded up. */
  function Surcharge(overdrawn: int): int {
    (overdrawn + 1) / 2
  }

  /** What `units` raw units cost on top of `consumed`: the total and the part that is surcharge. */
  function ApplyOverdraft(c: Config, consumed: int, units: int): (int, int) {
    if c.overdraftLimit <= 0 || consumed + units <= c.budgetLimit then (units, 0)
    else
      var normal := if consumed < c.budgetLimit then c.budgetLimit - consumed else 0;
      var penalty := Surcharge(units - normal);
      (units + penalty, penalty)
  }

  function Accrue(rt: Runtime, name: string, units: int, meteredAt: int): Runtime
    requires name in rt.holdings
  {
    var cost := ApplyOverdraft(rt.config, rt.consumed, units);
    var h := rt.holdings[name];
    rt.(consumed := rt.consumed + cost.0, penalty := rt.penalty + cost.1,
        holdings := rt.holdings[name := h.(unitsAccrued := h.unitsAccrued + cost.0, lastMeteredAt := meteredAt)])
  }

  function NoteOverdraft(rt: Runtime): Runtime {
    if rt.consumed > rt.config.budgetLimit then rt.(currentOverdraft := rt.consumed - rt.config.budgetLimit) else rt
  }

  function MeteredAt(rt: Runtime, name: string, at: int): Runtime
    requires name in rt.holdings
  {
    rt.(holdings := rt.holdings[name := rt.holdings[name].(lastMeteredAt := at)])
  }

  // ---------------------------------------------------------------- metering

  /** One holding at one tick: whole seconds are charged, the fraction stays for the next tick. */
  function MeterOne(rt: Runtime, name: string, now: int, inArrears: bool): Runtime {
    if name !in rt.holdings || rt.holdings[name].expiresAt <= now then rt
    else if inArrears then MeteredAt(rt, name, now)
    else
      var last := rt.holdings[name].lastMeteredAt;
      var units := (now - last) / SECOND;
      if last < now && units > 0 then NoteOverdraft(Accrue(rt, name, units, last + units * SECOND)) else rt
  }

  function MeterAll(rt: Runtime, order: seq<string>, now: int, inArrears: bool): Runtime
    decreases |order|
  {
    if order == [] then rt else MeterAll(MeterOne(rt, order[0], now, inArrears), order[1..], now, inArrears)
  }

  function DropExpired(rt: Runtime, now: int): Runtime {
    rt.(holdings := map name | name in rt.holdings && rt.holdings[name].expiresAt > now :: rt.holdings[name])
  }

  /** All holdings in the order in which the map happens to be iterated, then the expired ones go. */
  function Meter(rt: Runtime, order: seq<string>, now: int, inArrears: bool): Runtime {
    DropExpired(MeterAll(rt, order, now, inArrears), now)
  }

  function Start(rt: Runtime, name: string, acquiredAt: int, expiresAt: int): Runtime {
    var from := if acquiredAt < rt.periodStart then rt.periodStart else acquiredAt;
    rt.(holdings := rt.holdings[name := Holding(expiresAt, from, 0)])
  }

  function Renew(rt: Runtime, name: string, expiresAt: int): Runtime {
    if name !in rt.holdings then rt
    else rt.(holdings := rt.holdings[name := rt.holdings[name].(expiresAt := expiresAt)])
  }

  /** Whole seconds, rounded up. */
  function SecondsUp(duration: int): int {
    (duration + SECOND - 1) / SECOND
  }

  function Charged(rt: Runtime, name: string, releasedAt: int): Runtime
    requires name in rt.holdings
  {
    var last := rt.holdings[name].lastMeteredAt;
    if last < releasedAt then NoteOverdraft(Accrue(rt, name, SecondsUp(releasedAt - last), releasedAt)) else rt
  }

  /** The end of a hold: what is left is rounded up. */
  function Stop(rt: Runtime, name: string, releasedAt: int): Runtime {
    if name !in rt.holdings then rt
    else
      var charged := Charged(rt, name, releasedAt);
      charged.(holdings := charged.holdings - {name})
  }

  function StopUnits(rt: Runtime, name: string, releasedAt: int): int {
    if name !in rt.holdings then 0 else Charged(rt, name, releasedAt).holdings[name].unitsAccrued
  }

  /** The order names each of these once: the order in which a map happens to be iterated. */
  ghost predicate ListsOnce(order: seq<string>, names: set<string>) {
    && (forall name :: name in order <==> name in names)
    && (forall i, j | 0 <= i < j < |order| :: order[i] != order[j])
  }

  // ---------------------------------------------------------------- period roll-over

  function FinalizeOne(rt: Runtime, name: string, end: int, inArrears: bool): Runtime {
    if name !in rt.holdings || rt.holdings[name].lastMeteredAt >= end then rt
    else if inArrears then MeteredAt(rt, name, end)
    else
      var units := (end - rt.holdings[name].lastMeteredAt) / SECOND;
      if units > 0 then Accrue(rt, name, units, end) else rt
  }

  function FinalizeAll(rt: Runtime, order: seq<string>, end: int, inArrears: bool): Runtime
    decreases |order|
  {
    if order == [] then rt else FinalizeAll(FinalizeOne(rt, order[0], end, inArrears), order[1..], end, inArrears)
  }

  /** Summaries are keyed by their start: one that exists is overwritten, its penalty added up. */
  function Upsert(summaries: seq<Summary>, s: Summary): seq<Summary> {
    if summaries == [] then [s]
    else if summaries[0].start == s.start then [s.(penalty := summaries[0].penalty + s.penalty)] + summaries[1..]
    else [summaries[0]] + Upsert(summaries[1..], s)
  }

  function Finalize(rt: Runtime, order: seq<string>, end: int, inArrears: bool): Runtime {
    var t := FinalizeAll(rt, order, end, inArrears);
    var s := if inArrears then Summary(t.periodStart, end, 0, 0) else Summary(t.periodStart, end, t.consumed, t.penalty);
    t.(summaries := Upsert(t.summaries, s))
  }

  function PeriodsToAdvance(elapsedSec: int, periodSec: int): int
    requires periodSec > 0
  {
    if elapsedSec <= periodSec then 1
    else elapsedSec / periodSec + (if elapsedSec % periodSec > 0 then 1 else 0)
  }

  /** Empty summaries for `n` whole periods from `start` on. */
  function AddEmpty(summaries: seq<Summary>, start: int, period: int, n: nat): seq<Summary>
    decreases n
  {
    if n == 0 then summaries
    else AddEmpty(Upsert(summaries, Summary(start, start + period, 0, 0)), start + period, period, n - 1)
  }

  function Remetered(holdings: map<string, Holding>, now: int): map<string, Holding> {
    map name | name in holdings :: holdings[name].(lastMeteredAt := now, unitsAccrued := 0)
  }

  /** The period check at `now`: nothing before the period's end, otherwise close it and open the next. */
  function Reset(rt: Runtime, order: seq<string>, now: int, inArrears: bool): Runtime
    requires rt.config.periodSec > 0
  {
    if now < rt.periodEnd then rt
    else
      var t := Finalize(rt, order, rt.periodEnd, inArrears);
      var period := rt.config.periodSec * SECOND;
      var n := PeriodsToAdvance((now - rt.periodEnd) / SECOND, rt.config.periodSec);
      var start := rt.periodEnd + (n - 1) * period;
      var carry := if inArrears then 0 else t.currentOverdraft + t.penalty;
      t.(periodStart := start, periodEnd := start + period,
         summaries := AddEmpty(t.summaries, rt.periodEnd, period, if n >= 1 then n - 1 else 0),
         consumed := carry, carryOver := carry, currentOverdraft := 0, penalty := 0,
         holdings := Remetered(t.holdings, now))
  }

  /** A tick of the meter, or the refresh before a check. */
  function Tick(rt: Runtime, resetOrder: seq<string>, order: seq<string>, now: int, inArrears: bool): Runtime
    requires rt.config.periodSec > 0
  {
    Meter(Reset(rt, resetOrder, now, inArrears), order, now, inArrears)
  }
}
