/** Consumption-rate alerts of internal/ratealert/manager.go for one caller: a pruned sliding window,
    alerts at most every half window, and a freeze after a number of them. */
module RateAlert {
  import opened Clock
  import opened Sums

  datatype Rule = Rule(windowSec: int, maxUnits: int, freezeTriggerN: int, enabled: bool)
  datatype Record = Record(at: int, units: int)
  datatype Watch = Watch(rule: Rule, window: seq<Record>, consecutiveAlerts: int, lastAlertAt: int, frozen: bool)

  predicate RuleOk(rule: Rule) {
    rule.windowSec > 0 && rule.maxUnits > 0 && rule.freezeTriggerN > 0
  }

  function Window(rule: Rule): int {
    rule.windowSec * SECOND
  }

  /** Alerts are suppressed for half a window. */
  function HalfWindow(rule: Rule): int {
    Window(rule) / 2
  }

  /** Drops the expired records in front of the first fresh one. */
  function Prune(window: seq<Record>, cutoff: int): seq<Record> {
    if window == [] || window[0].at >= cutoff then window else Prune(window[1..], cutoff)
  }

  function UnitsOf(r: Record): int {
    r.units
  }

  function TotalUnits(window: seq<Record>): int {
    SumBy(window, UnitsOf)
  }

  function WithRule(w: Watch, rule: Rule, now: int): Watch {
    var n := if rule.freezeTriggerN <= 0 then 3 else rule.freezeTriggerN;
    if rule.windowSec <= 0 || rule.maxUnits <= 0 then w
    else Watch(rule.(freezeTriggerN := n), [], 0, now - 2 * Window(rule), w.frozen)
  }

  predicate Accepts(w: Watch, units: int) {
    units > 0 && w.rule.enabled && !w.frozen
  }

  function Windowed(w: Watch, units: int, at: int): seq<Record> {
    Prune(w.window + [Record(at, units)], at - Window(w.rule))
  }

  predicate Alerts(w: Watch, units: int, at: int) {
    Accepts(w, units) && TotalUnits(Windowed(w, units, at)) >= w.rule.maxUnits && at - w.lastAlertAt >= HalfWindow(w.rule)
  }

  predicate Freezes(w: Watch, units: int, at: int) {
    Alerts(w, units, at) && w.consecutiveAlerts + 1 >= w.rule.freezeTriggerN
  }

  function Consume(w: Watch, units: int, at: int): Watch {
    if !Accepts(w, units) then w
    else
      var seen := w.(window := Windowed(w, units, at));
      if !Alerts(w, units, at) then seen
      else seen.(consecutiveAlerts := w.consecutiveAlerts + 1, lastAlertAt := at, frozen := Freezes(w, units, at))
  }

  function Clean(w: Watch, now: int): Watch {
    w.(window := Prune(w.window, now - Window(w.rule)))
  }

  function Unfreeze(w: Watch): Watch {
    if w.frozen then w.(frozen := false, consecutiveAlerts := 0) else w
  }

  // ---------------------------------------------------------------- in place

  class Watcher {
    var rule: Rule
    var window: seq<Record>
    var consecutiveAlerts: int
    var lastAlertAt: int
    var frozen: bool

    function View(): Watch
      reads this
    {
      Watch(rule, window, consecutiveAlerts, lastAlertAt, frozen)
    }

    constructor (rule: Rule, now: int)
      requires RuleOk(rule)
      ensures View() == Watch(rule, [], 0, now - 2 * Window(rule), false)
      ensures TraceOk(Trace(View(), [], [], 0), now)
    {
      this.rule, window, consecutiveAlerts := rule, [], 0;
      lastAlertAt, frozen := now - 2 * Window(rule), false;
      new;
      hide TraceOk;
      NewTraceOk(View(), now);
    }

    method SetRule(newRule: Rule, now: int) returns (ok: bool)
      modifies this
      ensures View() == WithRule(old(View()), newRule, now)
      ensures ok <==> newRule.windowSec > 0 && newRule.maxUnits > 0
    {
      if newRule.windowSec <= 0 || newRule.maxUnits <= 0 {
        return false;
      }
      rule := newRule;
      if newRule.freezeTriggerN <= 0 {
        rule := newRule.(freezeTriggerN := 3);
      }
      window := [];
      consecutiveAlerts := 0;
      lastAlertAt := now - 2 * Window(newRule);
      return true;
    }

    method PruneWindow(cutoff: int)
      modifies this`window
      ensures window == Prune(old(window), cutoff)
    {
      var validIdx := 0;
      while validIdx < |window| && window[validIdx].at < cutoff
        invariant 0 <= validIdx <= |window|
        invariant Prune(window, cutoff) == Prune(window[validIdx..], cutoff)
      {
        assert window[validIdx..][1..] == window[validIdx + 1..];
        validIdx := validIdx + 1;
      }
      window := window[validIdx..];
    }

    method SumWindow() returns (total: int)
      ensures total == TotalUnits(window)
    {
      total := 0;
      var i := 0;
      assert window[0..] == window;
      while i < |window|
        invariant 0 <= i <= |window|
        invariant total + TotalUnits(window[i..]) == TotalUnits(window)
      {
        assert window[i..][1..] == window[i + 1..];
        total := total + window[i].units;
        i := i + 1;
      }
    }

    method RecordConsumption(units: int, at: int) returns (alerted: bool)
      modifies this
      ensures View() == Consume(old(View()), units, at)
      ensures alerted <==> Alerts(old(View()), units, at)
    {
      hide Prune, TotalUnits;
      alerted := false;
      if units <= 0 || !rule.enabled || frozen {
        return;
      }
      window := window + [Record(at, units)];
      PruneWindow(at - Window(rule));
      var total := SumWindow();
      if total >= rule.maxUnits && at - lastAlertAt >= HalfWindow(rule) {
        alerted := true;
        consecutiveAlerts := consecutiveAlerts + 1;
        lastAlertAt := at;
        if consecutiveAlerts >= rule.freezeTriggerN {
          frozen := true;
        }
      }
    }

    method CleanupExpiredRecords(now: int)
      modifies this`window
      ensures View() == Clean(old(View()), now)
    {
      PruneWindow(now - Window(rule));
    }

    method UnfreezeCaller() returns (ok: bool)
      modifies this`frozen, this`consecutiveAlerts
      ensures View() == Unfreeze(old(View())) && (ok <==> old(frozen))
    {
      ok := frozen;
      if frozen {
        frozen := false;
        consecutiveAlerts := 0;
      }
    }
  }

  // ---------------------------------------------------------------- runs

  datatype AlertEvent =
    | Consumed(units: int, at: int)
    | Cleaned(at: int)
    | Unfrozen(at: int)
    | RuleSet(rule: Rule, at: int)

  /** The state with everything that has been accepted and every alert since the rule was set;
      `base` alerts came before the last unfreeze. */
  datatype Trace = Trace(watch: Watch, history: seq<Record>, alerts: seq<int>, base: nat)

  function Step(t: Trace, e: AlertEvent): Trace {
    match e
    case Consumed(units, at) =>
      Trace(Consume(t.watch, units, at),
            if Accepts(t.watch, units) then t.history + [Record(at, units)] else t.history,
            if Alerts(t.watch, units, at) then t.alerts + [at] else t.alerts,
            t.base)
    case Cleaned(at) => t.(watch := Clean(t.watch, at))
    case Unfrozen(_) => t.(watch := Unfreeze(t.watch), base := if t.watch.frozen then |t.alerts| else t.base)
    case RuleSet(rule, at) =>
      if rule.windowSec <= 0 || rule.maxUnits <= 0 then t else Trace(WithRule(t.watch, rule, at), [], [], 0)
  }

  function RunOf(t: Trace, events: seq<AlertEvent>): Trace
    decreases |events|
  {
    if events == [] then t else RunOf(Step(t, events[0]), events[1..])
  }

  predicate InOrder(events: seq<AlertEvent>, now: int)
    decreases |events|
  {
    events == [] || (now <= events[0].at && InOrder(events[1..], events[0].at))
  }

  function EndOf(events: seq<AlertEvent>, now: int): int {
    if events == [] then now else events[|events| - 1].at
  }

  /** Units accepted at or after `cutoff`. */
  function UnitsSince(history: seq<Record>, cutoff: int): int {
    SumBy(history, (r: Record) => if r.at >= cutoff then r.units else 0)
  }

  ghost predicate TimesOk(history: seq<Record>, now: int) {
    && (forall i, j | 0 <= i < j < |history| :: history[i].at <= history[j].at)
    && forall i | 0 <= i < |history| :: history[i].at <= now
  }

  /** The window holds a tail of the history; what is missing is older than a window. */
  ghost predicate IsTail(window: seq<Record>, history: seq<Record>, cutoff: int) {
    && |window| <= |history|
    && window == history[|history| - |window|..]
    && forall i | 0 <= i < |history| - |window| :: history[i].at < cutoff
  }

  ghost predicate Spaced(alerts: seq<int>, gap: int) {
    forall i | 0 < i < |alerts| :: alerts[i] - alerts[i - 1] >= gap
  }

  ghost predicate TraceOk(t: Trace, now: int) {
    && RuleOk(t.watch.rule)
    && TimesOk(t.history, now) && IsTail(t.watch.window, t.history, now - Window(t.watch.rule))
    && Spaced(t.alerts, HalfWindow(t.watch.rule))
    && (if t.alerts != [] then t.watch.lastAlertAt == t.alerts[|t.alerts| - 1]
        else now - t.watch.lastAlertAt >= HalfWindow(t.watch.rule))
    && t.base <= |t.alerts|
    && t.watch.consecutiveAlerts == |t.alerts| - t.base
    && (!t.watch.frozen ==> t.watch.consecutiveAlerts < t.watch.rule.freezeTriggerN)
  }

  lemma NewTraceOk(w: Watch, now: int)
    requires RuleOk(w.rule) && w.window == [] && w.consecutiveAlerts == 0 && now - w.lastAlertAt >= HalfWindow(w.rule)
    ensures TraceOk(Trace(w, [], [], 0), now)
  {
    hide HalfWindow, Window;
  }

  lemma {:induction false} PruneSplits(window: seq<Record>, cutoff: int)
    ensures |Prune(window, cutoff)| <= |window|
    ensures Prune(window, cutoff) == window[|window| - |Prune(window, cutoff)|..]
    ensures forall i | 0 <= i < |window| - |Prune(window, cutoff)| :: window[i].at < cutoff
    ensures Prune(window, cutoff) != [] ==> Prune(window, cutoff)[0].at >= cutoff
  {
    if window != [] && window[0].at < cutoff {
      PruneSplits(window[1..], cutoff);
      var kept := Prune(window, cutoff);
      forall i | 0 <= i < |window| - |kept| ensures window[i].at < cutoff {
        if i > 0 {
          assert window[i] == window[1..][i - 1];
        }
      }
    }
  }

  lemma PruneTail(window: seq<Record>, history: seq<Record>, before: int, cutoff: int)
    requires IsTail(window, history, before) && before <= cutoff
    ensures IsTail(Prune(window, cutoff), history, cutoff)
  {
    PruneSplits(window, cutoff);
    var kept := Prune(window, cutoff);
    var n, m := |history| - |window|, |history| - |kept|;
    assert kept == window[m - n..];
    forall i | 0 <= i < m ensures history[i].at < cutoff {
      if i >= n {
        assert history[i] == window[i - n];
      }
    }
    assert history[n..][m - n..] == history[m..];
  }

  lemma {:induction false} OldUnits(history: seq<Record>, cutoff: int)
    requires forall i | 0 <= i < |history| :: history[i].at < cutoff
    ensures UnitsSince(history, cutoff) == 0
  {
    if history != [] {
      OldUnits(history[1..], cutoff);
    }
  }

  lemma {:induction false} FreshUnits(history: seq<Record>, cutoff: int)
    requires forall i | 0 <= i < |history| :: history[i].at >= cutoff
    ensures UnitsSince(history, cutoff) == TotalUnits(history)
  {
    if history != [] {
      FreshUnits(history[1..], cutoff);
    }
  }

  lemma UnitsSplit(history: seq<Record>, k: nat, cutoff: int)
    requires k <= |history|
    ensures UnitsSince(history, cutoff) == UnitsSince(history[..k], cutoff) + UnitsSince(history[k..], cutoff)
  {
    assert history == history[..k] + history[k..];
    SumByAppend(history[..k], history[k..], (r: Record) => if r.at >= cutoff then r.units else 0);
  }

  lemma AppendTail(window: seq<Record>, history: seq<Record>, cutoff: int, r: Record)
    requires IsTail(window, history, cutoff)
    ensures IsTail(window + [r], history + [r], cutoff)
  {
    var n := |history| - |window|;
    assert (history + [r])[n..] == history[n..] + [r];
  }

  lemma TailTotal(window: seq<Record>, history: seq<Record>, cutoff: int)
    requires IsTail(window, history, cutoff) && forall i | 0 <= i < |window| :: window[i].at >= cutoff
    ensures TotalUnits(window) == UnitsSince(history, cutoff)
  {
    hide TotalUnits, UnitsSince;
    var k := |history| - |window|;
    UnitsSplit(history, k, cutoff);
    OldUnits(history[..k], cutoff);
    FreshUnits(window, cutoff);
  }

  lemma WindowMoves(t: Trace, now: int, units: int, at: int)
    requires TraceOk(t, now) && now <= at
    ensures TimesOk(t.history + [Record(at, units)], at)
    ensures IsTail(Windowed(t.watch, units, at), t.history + [Record(at, units)], at - Window(t.watch.rule))
  {
    hide Prune, IsTail, Spaced;
    var before := now - Window(t.watch.rule);
    var r := Record(at, units);
    AppendTail(t.watch.window, t.history, before, r);
    PruneTail(t.watch.window + [r], t.history + [r], before, at - Window(t.watch.rule));
  }

  /** The pruned window's total is the sum over the whole accepted history of what lies within one
      window of the new record. */
  lemma WindowIsExact(t: Trace, now: int, units: int, at: int)
    requires TraceOk(t, now) && now <= at && Accepts(t.watch, units)
    ensures TotalUnits(Windowed(t.watch, units, at))
            == UnitsSince(t.history + [Record(at, units)], at - Window(t.watch.rule))
  {
    var cutoff := at - Window(t.watch.rule);
    WindowMoves(t, now, units, at);
    hide TraceOk, TimesOk, IsTail, TotalUnits, UnitsSince, Prune;
    PruneSplits(t.watch.window + [Record(at, units)], cutoff);
    TailTotal(Windowed(t.watch, units, at), t.history + [Record(at, units)], cutoff);
  }

  lemma NextAlert(alerts: seq<int>, gap: int, at: int)
    requires Spaced(alerts, gap) && (alerts != [] ==> at - alerts[|alerts| - 1] >= gap)
    ensures Spaced(alerts + [at], gap)
  {
  }

  /** Time passing lets the tail grow no shorter. */
  lemma TailLater(window: seq<Record>, history: seq<Record>, before: int, cutoff: int)
    requires IsTail(window, history, before) && before <= cutoff
    ensures IsTail(window, history, cutoff)
  {
  }

  lemma ConsumedKeepsOk(t: Trace, now: int, units: int, at: int)
    requires TraceOk(t, now) && now <= at
    ensures TraceOk(Step(t, Consumed(units, at)), at)
  {
    hide TotalUnits, HalfWindow, Prune, IsTail, Spaced;
    if Accepts(t.watch, units) {
      WindowMoves(t, now, units, at);
      hide TimesOk;
      if Alerts(t.watch, units, at) {
        NextAlert(t.alerts, HalfWindow(t.watch.rule), at);
      }
    } else {
      TailLater(t.watch.window, t.history, now - Window(t.watch.rule), at - Window(t.watch.rule));
    }
  }

  lemma StepKeepsOk(t: Trace, now: int, e: AlertEvent)
    requires TraceOk(t, now) && now <= e.at
    ensures TraceOk(Step(t, e), e.at)
  {
    hide TotalUnits, Prune;
    match e
    case Consumed(units, at) => ConsumedKeepsOk(t, now, units, at);
    case Cleaned(at) => PruneTail(t.watch.window, t.history, now - Window(t.watch.rule), at - Window(t.watch.rule));
    case _ =>
  }

  /** With clock readings that never go back, every reachable state is in order: alerts since the rule
      was set are at least half a window apart, those since the last unfreeze are counted, and the
      caller is not frozen before the count reaches the trigger. */
  lemma {:induction false} RunKeepsOk(t: Trace, now: int, events: seq<AlertEvent>)
    requires TraceOk(t, now) && InOrder(events, now)
    ensures TraceOk(RunOf(t, events), EndOf(events, now))
    decreases |events|
  {
    hide Step, TraceOk;
    if events != [] {
      StepKeepsOk(t, now, events[0]);
      RunKeepsOk(Step(t, events[0]), events[0].at, events[1..]);
    }
  }

  /** A record counts exactly if it has units, the rule is enabled and the caller is not frozen: then it
      enters the history and the window, and otherwise nothing changes. */
  lemma AcceptedExact(t: Trace, units: int, at: int)
    requires RuleOk(t.watch.rule)
    ensures var after := Step(t, Consumed(units, at));
            if units > 0 && t.watch.rule.enabled && !t.watch.frozen
            then after.history == t.history + [Record(at, units)] && after.watch.window != []
                 && after.watch.window[|after.watch.window| - 1] == Record(at, units)
            else after == t
  {
    hide TotalUnits, Prune;
    if Accepts(t.watch, units) {
      var all := t.watch.window + [Record(at, units)];
      PruneSplits(all, at - Window(t.watch.rule));
      assert all[|t.watch.window|] == Record(at, units);
    }
  }

  /** The record that makes the rule alert: it counts, the units of the last window reach the limit, and half a
      window has passed since the last alert under this rule, if there was one. */
  ghost predicate MakesAlert(t: Trace, units: int, at: int) {
    && units > 0 && t.watch.rule.enabled && !t.watch.frozen
    && UnitsSince(t.history + [Record(at, units)], at - t.watch.rule.windowSec * SECOND) >= t.watch.rule.maxUnits
    && (t.alerts != [] ==> at - t.alerts[|t.alerts| - 1] >= t.watch.rule.windowSec * SECOND / 2)
  }

  /** A record alerts exactly when the units accepted in the last window reach the limit and half a
      window has passed since the last alert under this rule, if there was one. */
  lemma AlertExact(t: Trace, now: int, units: int, at: int)
    requires TraceOk(t, now) && now <= at
    ensures var after := Step(t, Consumed(units, at));
            && (Alerts(t.watch, units, at) <==> MakesAlert(t, units, at))
            && after.alerts == (if MakesAlert(t, units, at) then t.alerts + [at] else t.alerts)
  {
    hide UnitsSince, TotalUnits, Prune;
    if Accepts(t.watch, units) {
      WindowIsExact(t, now, units, at);
    }
  }

  /** Cleaning leaves exactly the records of the last window. */
  lemma CleanExact(t: Trace, now: int, at: int)
    requires TraceOk(t, now) && now <= at
    ensures var after := Step(t, Cleaned(at));
            && after == t.(watch := t.watch.(window := after.watch.window))
            && IsTail(after.watch.window, t.history, at - t.watch.rule.windowSec * SECOND)
            && forall i | 0 <= i < |after.watch.window| :: after.watch.window[i].at >= at - t.watch.rule.windowSec * SECOND
  {
    hide Prune;
    PruneTail(t.watch.window, t.history, now - Window(t.watch.rule), at - Window(t.watch.rule));
    PruneSplits(t.watch.window, at - Window(t.watch.rule));
  }

  /** A new rule starts with an empty window, no alerts and the trigger 3 where none is given; it does not
      end a freeze. A rule without a window or a limit is refused. */
  lemma NewRuleExact(t: Trace, rule: Rule, at: int)
    ensures var after := Step(t, RuleSet(rule, at));
            if rule.windowSec > 0 && rule.maxUnits > 0
            then after.watch.rule == (if rule.freezeTriggerN > 0 then rule else Rule(rule.windowSec, rule.maxUnits, 3, rule.enabled))
                 && after.watch.window == [] && after.history == [] && after.alerts == [] && after.base == 0
                 && after.watch.frozen == t.watch.frozen && TraceOk(after, at)
            else after == t
  {
  }

  // ---------------------------------------------------------------- freezing

  /** Unfreezing ends the freeze, restarts the count, and lets the next record count again. */
  lemma UnfreezeExact(t: Trace, at: int, units: int, later: int)
    requires RuleOk(t.watch.rule)
    ensures var after := Step(t, Unfrozen(at));
            && !after.watch.frozen && after.history == t.history && after.alerts == t.alerts
            && after.watch == t.watch.(frozen := false, consecutiveAlerts := if t.watch.frozen then 0 else t.watch.consecutiveAlerts)
            && (units > 0 && t.watch.rule.enabled ==>
                  var next := Step(after, Consumed(units, later));
                  && next.history == t.history + [Record(later, units)]
                  && next.watch.window != [] && next.watch.window[|next.watch.window| - 1] == Record(later, units))
  {
    AcceptedExact(Step(t, Unfrozen(at)), units, later);
    hide Consume;
  }

  /** The event is the record that makes the alert with the number of the trigger, counted since the
      rule was set or the last unfreeze. */
  ghost predicate NthAlert(t: Trace, e: AlertEvent) {
    e.Consumed? && MakesAlert(t, e.units, e.at) && |t.alerts| + 1 - t.base == t.watch.rule.freezeTriggerN
  }

  /** One event freezes or unfreezes exactly so. */
  lemma StepFrozen(t: Trace, now: int, e: AlertEvent)
    requires TraceOk(t, now) && now <= e.at
    ensures Step(t, e).watch.frozen <==> NthAlert(t, e) || (t.watch.frozen && !e.Unfrozen?)
  {
    hide TotalUnits, Prune, UnitsSince, HalfWindow, MakesAlert;
    if e.Consumed? {
      AlertExact(t, now, e.units, e.at);
    }
  }

  lemma {:induction false} RunLast(t: Trace, events: seq<AlertEvent>, e: AlertEvent)
    ensures RunOf(t, events + [e]) == Step(RunOf(t, events), e)
    decreases |events|
  {
    hide Step;
    if events == [] {
      assert [e][1..] == [] && events + [e] == [e];
    } else {
      assert (events + [e])[1..] == events[1..] + [e];
      RunLast(Step(t, events[0]), events[1..], e);
    }
  }

  lemma {:induction false} InOrderLast(events: seq<AlertEvent>, e: AlertEvent, now: int)
    requires InOrder(events + [e], now)
    ensures InOrder(events, now) && EndOf(events, now) <= e.at
    decreases |events|
  {
    if events == [] {
      assert events + [e] == [e];
    } else {
      assert (events + [e])[1..] == events[1..] + [e];
      InOrderLast(events[1..], e, events[0].at);
    }
  }

  /** The `k`-th event freezes the caller, and none after it unfreezes the caller. */
  ghost predicate FreezeAt(t: Trace, events: seq<AlertEvent>, k: int) {
    0 <= k < |events| && NthAlert(RunOf(t, events[..k]), events[k]) && forall j | k < j < |events| :: !events[j].Unfrozen?
  }

  lemma FreezeExtends(t: Trace, events: seq<AlertEvent>, e: AlertEvent)
    ensures (exists k :: FreezeAt(t, events + [e], k))
            <==> NthAlert(RunOf(t, events), e) || (!e.Unfrozen? && exists k :: FreezeAt(t, events, k))
  {
    hide RunOf, NthAlert;
    var all := events + [e];
    assert all[..|events|] == events;
    forall k | 0 <= k < |events| ensures all[..k] == events[..k] && all[k] == events[k] {
    }
    if NthAlert(RunOf(t, events), e) {
      assert FreezeAt(t, all, |events|);
    }
    if !e.Unfrozen? && exists k :: FreezeAt(t, events, k) {
      var k :| FreezeAt(t, events, k);
      assert FreezeAt(t, all, k);
    }
    if k :| FreezeAt(t, all, k) {
      if k < |events| {
        assert !all[|events|].Unfrozen?;
        forall j | k < j < |events| ensures !events[j].Unfrozen? {
          assert all[j] == events[j];
        }
        assert FreezeAt(t, events, k);
      }
    }
  }

  /** Over any run: the caller is frozen exactly if some record made the alert with the number of the
      trigger and nobody has unfrozen the caller since. */
  lemma {:induction false} FrozenExact(t: Trace, now: int, events: seq<AlertEvent>)
    requires TraceOk(t, now) && InOrder(events, now) && !t.watch.frozen
    ensures RunOf(t, events).watch.frozen <==> exists k :: FreezeAt(t, events, k)
    decreases |events|
  {
    hide Step, TraceOk, InOrder, NthAlert, EndOf;
    if events != [] {
      var n := |events| - 1;
      var front, e := events[..n], events[n];
      assert events == front + [e];
      InOrderLast(front, e, now);
      FrozenExact(t, now, front);
      RunKeepsOk(t, now, front);
      hide FreezeAt;
      StepFrozen(RunOf(t, front), EndOf(front, now), e);
      RunLast(t, front, e);
      FreezeExtends(t, front, e);
    }
  }

  lemma {:induction false} GapsAdd(alerts: seq<int>, gap: int, i: nat, j: nat)
    requires Spaced(alerts, gap) && i <= j < |alerts|
    ensures alerts[j] - alerts[i] >= (j - i) * gap
    decreases j
  {
    if i < j {
      GapsAdd(alerts, gap, i, j - 1);
      assert (j - i) * gap == (j - 1 - i) * gap + gap;
    }
  }

  /** A freeze comes with exactly the trigger's number of alerts since the rule was set or the last
      unfreeze, so at least that many half windows less one after the first of them. */
  lemma FreezeTakesTime(t: Trace, now: int, units: int, at: int)
    requires TraceOk(t, now) && now <= at && !t.watch.frozen
    ensures var after := Step(t, Consumed(units, at));
            var n := t.watch.rule.freezeTriggerN;
            after.watch.frozen ==>
              && |after.alerts| - after.base == n && after.alerts[|after.alerts| - 1] == at
              && at - after.alerts[after.base] >= (n - 1) * HalfWindow(t.watch.rule)
    ensures Step(t, Consumed(units, at)).watch.frozen <==>
              Alerts(t.watch, units, at) && t.watch.consecutiveAlerts == t.watch.rule.freezeTriggerN - 1
  {
    ConsumedKeepsOk(t, now, units, at);
    hide TotalUnits, Prune, UnitsSince, HalfWindow;
    var after := Step(t, Consumed(units, at));
    if after.watch.frozen {
      GapsAdd(after.alerts, HalfWindow(t.watch.rule), after.base, |after.alerts| - 1);
    }
  }
}
