/** What each locked operation of internal/lock/manager.go does to the stored state, as
    functions on values. The class in LockManager.dfy is proved against them. */
module LockSpec {
  import opened Clock
  import opened Graphs
  import opened Fencing
  import opened LockTables

  const WAIT_TIMEOUT := 30 * SECOND

  datatype State = State(
    locks: map<string, Lock>,
    leases: seq<Lease>,
    queue: seq<WaitItem>,
    nextId: nat,
    timers: map<string, int>,
    accelerated: map<string, int>,
    fencing: Store)

  /** What one operation finds around it: the clock, and the answers of the admission
      guard, the budget manager and the reputation checker. */
  datatype Env = Env(
    now: int,
    admits: (string, string, int) -> bool,        // lock, holder, lease
    withinBudget: (string, string, int) -> bool,  // holder, lock, lease
    underLimit: string -> bool,                   // holder
    isGold: string -> bool)                       // holder

  predicate IsHeld(s: State, name: string) {
    name in s.locks && s.locks[name].status == Held
  }

  // ---------------------------------------------------------------- wait-for graph

  /** Waiter to current holder, one edge for each queued row of a held lock. */
  ghost function WaitGraph(s: State): Graph {
    set r | r in s.queue && Waits(s, r) :: (r.holder, s.locks[r.lockName].holder)
  }

  predicate Waits(s: State, r: WaitItem) {
    IsHeld(s, r.lockName) && s.locks[r.lockName].holder != "" && s.locks[r.lockName].holder != r.holder
  }

  /** A request of `holder` for a lock held by `owner` would see a cycle. */
  ghost predicate SeesCycle(s: State, holder: string, owner: string) {
    CycleReachable(WaitGraph(s) + {(holder, owner)}, holder)
  }

  // ---------------------------------------------------------------- building blocks

  function CappedLease(s: State, name: string, leaseSec: int): int {
    if name in s.accelerated && 0 < s.accelerated[name] < leaseSec then s.accelerated[name] else leaseSec
  }

  /** The lock passes to `holder` with a fresh active lease, token and timer. */
  function Hold(s: State, name: string, holder: string, reentrant: bool, leaseSec: int, now: int): State {
    var expiry := now + leaseSec * SECOND;
    s.(locks := s.locks[name := Lock(Held, holder, reentrant, 1)],
       leases := s.leases + [Lease(name, holder, leaseSec, now, expiry, true,
                                   Token(name, NextSequence(s.fencing, name)))],
       timers := s.timers[name := expiry],
       fencing := AfterIssue(s.fencing, name, holder, leaseSec, now))
  }

  /** The lock is free again: no active lease, no timer. */
  function Vacate(s: State, name: string): State
    requires name in s.locks
  {
    s.(locks := s.locks[name := Lock(Free, "", s.locks[name].reentrant, 0)],
       leases := Deactivate(s.leases, name),
       timers := s.timers - {name})
  }

  predicate Skipped(item: WaitItem, env: Env) {
    item.timeoutAt < env.now || !env.withinBudget(item.holder, item.lockName, item.leaseSec)
  }

  /** The length of the maximal prefix of entries that a grant passes over. */
  function SkipCount(q: seq<WaitItem>, env: Env): (k: nat)
    ensures k <= |q|
    ensures forall i | 0 <= i < k :: q[i].timeoutAt < env.now || !env.withinBudget(q[i].holder, q[i].lockName, q[i].leaseSec)
    ensures k < |q| ==> q[k].timeoutAt >= env.now && env.withinBudget(q[k].holder, q[k].lockName, q[k].leaseSec)
  {
    if q == [] || !Skipped(q[0], env) then 0 else 1 + SkipCount(q[1..], env)
  }

  /** Drops the passed-over prefix of the queue, grants the next entry, keeps the rest. */
  function GrantNext(s: State, name: string, env: Env): State {
    var q := Rows(s.queue, name);
    var k := SkipCount(q, env);
    if k == |q| then s.(queue := Without(s.queue, Ids(q)))
    else
      Hold(s.(queue := Without(s.queue, Ids(q[..k + 1]))), name, q[k].holder, q[k].reentrant,
           CappedLease(s, name, q[k].leaseSec), env.now)
  }

  // ---------------------------------------------------------------- acquire

  datatype Outcome = Acquired | Queued(position: nat) | Deadlock | BudgetRejected | Refused

  predicate InQueue(q: seq<WaitItem>, holder: string) {
    exists r :: r in q && r.holder == holder
  }

  ghost function AcquireOutcome(s: State, name: string, holder: string, leaseSec: int, reentrant: bool, env: Env): Outcome {
    if leaseSec <= 0 || !env.admits(name, holder, leaseSec) then Refused
    else if !env.withinBudget(holder, name, leaseSec) then BudgetRejected
    else if !env.underLimit(holder) then Refused
    else if !IsHeld(s, name) then Acquired
    else if s.locks[name].holder == holder then
      if s.locks[name].reentrant && reentrant then Acquired else Refused
    else if SeesCycle(s, holder, s.locks[name].holder) then Deadlock
    else if InQueue(Rows(s.queue, name), holder) then Refused
    else Queued(|Rows(s.queue, name)| + 1)
  }

  ghost function Acquire(s: State, name: string, holder: string, leaseSec: int, reentrant: bool, env: Env): State {
    match AcquireOutcome(s, name, holder, leaseSec, reentrant, env)
    case Acquired =>
      if IsHeld(s, name) then s.(locks := s.locks[name := s.locks[name].(count := s.locks[name].count + 1)])
      else Hold(s, name, holder, reentrant, CappedLease(s, name, leaseSec), env.now)
    case Queued(_) => QueueUp(s, name, holder, leaseSec, reentrant, env)
    case _ => s
  }

  function Enqueue(s: State, item: WaitItem): State {
    s.(queue := s.queue + [item.(id := s.nextId)], nextId := s.nextId + 1)
  }

  /** The new entry goes to the end, unless its holder has priority. */
  function QueueUp(s: State, name: string, holder: string, leaseSec: int, reentrant: bool, env: Env): State {
    var s' := Enqueue(s, WaitItem(0, name, holder, reentrant, leaseSec, env.now, env.now + WAIT_TIMEOUT));
    if env.isGold(holder) then GoldFirst(s', name, holder) else s'
  }

  /** `ReorderWaitQueueForGold`: the holder's rows first, the others after, each in order. */
  function GoldFirst(s: State, name: string, holder: string): State {
    var q := Rows(s.queue, name);
    var gold, other := OfHolder(q, holder), NotOfHolder(q, holder);
    if gold == [] || other == [] then s
    else s.(queue := Without(s.queue, Ids(q)) + Renumber(gold + other, s.nextId), nextId := s.nextId + |q|)
  }

  // ---------------------------------------------------------------- release, expiry, waits

  datatype ReleaseOutcome = NoSuchLock | NotHeld | NotHolder | CountedDown(count: int) | Released

  function Releasing(s: State, name: string, holder: string): ReleaseOutcome {
    if name !in s.locks then NoSuchLock
    else
      var l := s.locks[name];
      if l.status != Held then NotHeld
      else if l.holder != holder then NotHolder
      else if l.reentrant && l.count > 1 then CountedDown(l.count - 1)
      else Released
  }

  function Release(s: State, name: string, holder: string, env: Env): State {
    match Releasing(s, name, holder)
    case CountedDown(n) => s.(locks := s.locks[name := s.locks[name].(count := n)])
    case Released => GrantNext(Vacate(s, name), name, env)
    case _ => s
  }

  function Expire(s: State, name: string, env: Env): State {
    if IsHeld(s, name) then GrantNext(Vacate(s, name), name, env) else s
  }

  function TimedOut(table: seq<WaitItem>, now: int): set<nat> {
    set r | r in table && r.timeoutAt < now :: r.id
  }

  function WaitsOf(table: seq<WaitItem>, holder: string): set<nat> {
    set r | r in table && r.holder == holder :: r.id
  }

  function DropTimedOut(s: State, now: int): State {
    s.(queue := Without(s.queue, TimedOut(s.queue, now)))
  }

  function CancelWaits(s: State, holder: string): State {
    s.(queue := Without(s.queue, WaitsOf(s.queue, holder)))
  }

  // ---------------------------------------------------------------- lease length

  /** The lease of `name` that the manager would find, if `holder` may renew it now. */
  predicate Renewable(s: State, name: string, holder: string, now: int) {
    var a := ActiveLeases(s.leases, name);
    a != [] && a[|a| - 1].holder == holder && a[|a| - 1].expiresAt >= now
  }

  /** The seconds a renewal adds: under a cooldown, at most the cooldown once the new
      expiry would pass it. */
  function RenewSeconds(s: State, name: string, expiresAt: int, addSec: int, now: int): int {
    if name in s.accelerated && s.accelerated[name] > 0
       && expiresAt + addSec * SECOND > now + s.accelerated[name] * SECOND
    then s.accelerated[name] else addSec
  }

  function Renew(s: State, name: string, holder: string, addSec: int, now: int): State {
    if !Renewable(s, name, holder, now) then s
    else
      var a := ActiveLeases(s.leases, name);
      var was := a[|a| - 1].expiresAt;
      var expiry := was + RenewSeconds(s, name, was, addSec, now) * SECOND;
      s.(leases := SetExpiry(s.leases, name, expiry), timers := s.timers[name := expiry])
  }

  function Shorten(s: State, name: string, leaseSec: int, now: int): State {
    var a := ActiveLeases(s.leases, name);
    if a == [] || leaseSec <= 0 then s
    else
      var wanted := now + leaseSec * SECOND;
      var expiry := if wanted > a[|a| - 1].expiresAt then a[|a| - 1].expiresAt else wanted;
      s.(leases := SetExpiry(s.leases, name, expiry), timers := s.timers[name := expiry])
  }

  function SetAccelerated(s: State, name: string, enabled: bool, cooldownSec: int): State {
    s.(accelerated := if enabled then s.accelerated[name := cooldownSec] else s.accelerated - {name})
  }

  // ---------------------------------------------------------------- batch

  datatype BatchOutcome =
    | BatchAcquired
    | BatchHeldBy(lock: string, holder: string)
    | BatchOverBudget(lock: string)
    | BatchRefused(lock: string)
    | BatchInvalid

  datatype NoQueueOutcome = Taken | CountedUp | OverBudget | Rejected

  predicate Fails(o: NoQueueOutcome) {
    o == OverBudget || o == Rejected
  }

  function NoQueue(s: State, name: string, holder: string, leaseSec: int, reentrant: bool, env: Env): NoQueueOutcome {
    if !env.admits(name, holder, leaseSec) then Rejected
    else if !env.withinBudget(holder, name, leaseSec) then OverBudget
    else if !IsHeld(s, name) then Taken
    else if s.locks[name].holder == holder && s.locks[name].reentrant && reentrant then CountedUp
    else Rejected
  }

  function AcquireNoQueue(s: State, name: string, holder: string, leaseSec: int, reentrant: bool, env: Env): State {
    match NoQueue(s, name, holder, leaseSec, reentrant, env)
    case Taken => Hold(s, name, holder, reentrant, leaseSec, env.now)
    case CountedUp => s.(locks := s.locks[name := s.locks[name].(count := s.locks[name].count + 1)])
    case _ => s
  }

  /** Takes the names in order until one is rejected; says how many it took. */
  function TakeEach(s: State, names: seq<string>, holder: string, leaseSec: int, reentrant: bool, env: Env): (State, nat)
    decreases |names|
  {
    if names == [] || Fails(NoQueue(s, names[0], holder, leaseSec, reentrant, env)) then (s, 0)
    else
      var (s', n) := TakeEach(AcquireNoQueue(s, names[0], holder, leaseSec, reentrant, env),
                              names[1..], holder, leaseSec, reentrant, env);
      (s', n + 1)
  }

  /** Releases the names from the last to the first. */
  function ReleaseBack(s: State, names: seq<string>, holder: string, env: Env): State
    decreases |names|
  {
    if names == [] then s
    else ReleaseBack(Release(s, names[|names| - 1], holder, env), names[..|names| - 1], holder, env)
  }

  function FirstHeld(s: State, names: seq<string>): (i: nat)
    ensures i <= |names|
    ensures forall j | 0 <= j < i :: !IsHeld(s, names[j])
    ensures i < |names| ==> IsHeld(s, names[i])
  {
    if names == [] || IsHeld(s, names[0]) then 0 else 1 + FirstHeld(s, names[1..])
  }

  /** `names` is the sorted list of distinct lock names. */
  function BatchOf(s: State, names: seq<string>, holder: string, leaseSec: int, reentrant: bool, env: Env): (State, BatchOutcome) {
    var i := FirstHeld(s, names);
    if i < |names| then (s, BatchHeldBy(names[i], s.locks[names[i]].holder))
    else
      var (s', n) := TakeEach(s, names, holder, leaseSec, reentrant, env);
      if n >= |names| then (s', BatchAcquired)
      else
        (ReleaseBack(s', names[..n], holder, env),
         if NoQueue(s', names[n], holder, leaseSec, reentrant, env) == OverBudget
         then BatchOverBudget(names[n]) else BatchRefused(names[n]))
  }
}
