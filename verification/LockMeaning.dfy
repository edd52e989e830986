/** What each operation of the lock manager does to its lock, told by the row of the lock, its
    lease, the rows queued for it and the answers of the guards. */
module LockMeaning {
  import opened Clock
  import opened Graphs
  import opened Fencing
  import opened LockTables
  import opened LockSpec
  import opened LockInvariants
  import opened LockRuns
  import opened LockBatch
  import opened QueueOrder

  /** The lock is held once, under one active lease that ends, like its timer, `seconds` from now. */
  ghost predicate Leased(t: State, name: string, holder: string, reentrant: bool, seconds: int, now: int) {
    && name in t.locks && t.locks[name] == Lock(Held, holder, reentrant, 1)
    && |ActiveLeases(t.leases, name)| == 1
    && var l := ActiveLeases(t.leases, name)[0];
       && l.holder == holder && l.leaseSec == seconds && l.acquiredAt == now && l.expiresAt == now + seconds * SECOND
       && name in t.timers && t.timers[name] == now + seconds * SECOND
  }

  /** The first `n` rows are out of time or refused by the budget. */
  ghost predicate AllPassedOver(q: seq<WaitItem>, n: nat, name: string, env: Env)
    requires n <= |q|
  {
    forall i | 0 <= i < n :: q[i].timeoutAt < env.now || !env.withinBudget(q[i].holder, name, q[i].leaseSec)
  }

  /** Row `k` gets the lock, for the seconds it asked for or for a shorter cooldown. */
  ghost predicate Serves(s: State, t: State, name: string, env: Env, k: nat) {
    var q := Rows(s.queue, name);
    && k < |q|
    && q[k].timeoutAt >= env.now && env.withinBudget(q[k].holder, name, q[k].leaseSec)
    && AllPassedOver(q, k, name, env)
    && Rows(t.queue, name) == q[k + 1..]
    && Leased(t, name, q[k].holder, q[k].reentrant,
              if name in s.accelerated && 0 < s.accelerated[name] < q[k].leaseSec then s.accelerated[name] else q[k].leaseSec,
              env.now)
  }

  ghost predicate ServesNobody(s: State, t: State, name: string, env: Env) {
    && AllPassedOver(Rows(s.queue, name), |Rows(s.queue, name)|, name, env)
    && Rows(t.queue, name) == [] && !IsHeld(t, name) && Bare(t, name)
  }

  /** Nothing about the other locks and their queues has changed. */
  ghost predicate OthersSame(s: State, t: State, name: string) {
    && t.accelerated == s.accelerated
    && forall n | n != name :: SameLock(s, t, n) && Rows(t.queue, n) == Rows(s.queue, n)
  }

  /** The hold of a lock has ended: its leases are inactive, and the first row in time and within budget
      has the lock, or there is none such and the lock is free with nobody waiting. */
  ghost predicate PassedOn(s: State, t: State, name: string, env: Env) {
    && |s.leases| <= |t.leases|
    && (forall i | 0 <= i < |s.leases| && s.leases[i].lockName == name :: !t.leases[i].active)
    && OthersSame(s, t, name)
    && (ServesNobody(s, t, name, env) || exists k :: Serves(s, t, name, env, k))
  }

  // ---------------------------------------------------------------- grants

  lemma TakenFor(s: State, name: string, holder: string, reentrant: bool, leaseSec: int, now: int)
    requires Bare(s, name)
    ensures Leased(Hold(s, name, holder, reentrant, leaseSec, now), name, holder, reentrant, leaseSec, now)
  {
    HoldOwn(s, name, holder, reentrant, leaseSec, now);
  }

  /** The first row in time and within budget gets the lock; if there is none, nobody does. */
  lemma GrantServes(s: State, name: string, env: Env)
    requires QueueOk(s) && !IsHeld(s, name) && Bare(s, name)
    ensures var t := GrantNext(s, name, env);
            && OthersSame(s, t, name) && s.leases <= t.leases
            && (IsHeld(t, name) ==> exists k :: Serves(s, t, name, env, k))
            && (!IsHeld(t, name) ==> ServesNobody(s, t, name, env))
  {
    hide Rows, SameLock, Serves, ServesNobody, GrantNext, QueueOk, Bare;
    GrantExact(s, name, env);
    GrantRest(s, name, env);
    var k := SkipCount(Rows(s.queue, name), env);
    if k < |Rows(s.queue, name)| {
      RowServed(s, name, env, k);
      assert Serves(s, GrantNext(s, name, env), name, env, k);
    } else {
      NobodyServed(s, name, env);
    }
  }

  lemma RowServed(s: State, name: string, env: Env, k: nat)
    requires QueueOk(s) && !IsHeld(s, name) && Bare(s, name)
    requires k == SkipCount(Rows(s.queue, name), env) && k < |Rows(s.queue, name)|
    ensures Serves(s, GrantNext(s, name, env), name, env, k)
  {
    hide Rows, Without, QueueOk, Leased, Skipped, SkipCount;
    GrantExact(s, name, env);
    var q := Rows(s.queue, name);
    var s' := s.(queue := Without(s.queue, Ids(q[..k + 1])));
    TakenFor(s', name, q[k].holder, q[k].reentrant, CappedLease(s, name, q[k].leaseSec), env.now);
    hide Hold;
  }

  lemma NobodyServed(s: State, name: string, env: Env)
    requires QueueOk(s) && !IsHeld(s, name) && Bare(s, name)
    requires SkipCount(Rows(s.queue, name), env) == |Rows(s.queue, name)|
    ensures ServesNobody(s, GrantNext(s, name, env), name, env)
  {
    hide Rows, Without, QueueOk, Skipped, SkipCount;
    GrantExact(s, name, env);
  }

  lemma GrantRest(s: State, name: string, env: Env)
    ensures var t := GrantNext(s, name, env);
            && t.accelerated == s.accelerated && s.leases <= t.leases
            && forall n | n != name :: SameLock(s, t, n)
  {
    hide Rows, Without, SameLock, Hold, SkipCount;
    var q := Rows(s.queue, name);
    var k := SkipCount(q, env);
    var t := GrantNext(s, name, env);
    if k < |q| {
      var s' := s.(queue := Without(s.queue, Ids(q[..k + 1])));
      SameRest(s, s', name);
      HoldRest(s', name, q[k].holder, q[k].reentrant, CappedLease(s, name, q[k].leaseSec), env.now);
      SameRestTrans(s, s', t, name);
    } else {
      SameRest(s, t, name);
    }
  }

  lemma SameRest(s: State, t: State, name: string)
    requires t == s.(queue := t.queue)
    ensures t.accelerated == s.accelerated && forall n :: SameLock(s, t, n)
    ensures Bare(s, name) ==> Bare(t, name)
  {
  }

  lemma HoldRest(s: State, name: string, holder: string, reentrant: bool, leaseSec: int, now: int)
    ensures var t := Hold(s, name, holder, reentrant, leaseSec, now);
            && t.accelerated == s.accelerated && s.leases <= t.leases && t.queue == s.queue
            && forall n | n != name :: SameLock(s, t, n)
  {
    var t := Hold(s, name, holder, reentrant, leaseSec, now);
    forall n | n != name ensures SameLock(s, t, n) {
      HoldOthers(s, name, holder, reentrant, leaseSec, now, n);
    }
  }

  lemma SameRestTrans(s: State, t: State, u: State, name: string)
    requires forall n | n != name :: SameLock(s, t, n) && SameLock(t, u, n)
    ensures forall n | n != name :: SameLock(s, u, n)
  {
    forall n | n != name ensures SameLock(s, u, n) {
      assert SameLock(s, t, n) && SameLock(t, u, n);
    }
  }

  // ---------------------------------------------------------------- release and expiry

  lemma FreedPassesOn(s: State, name: string, env: Env)
    requires Inv(s) && name in s.locks
    ensures PassedOn(s, GrantNext(Vacate(s, name), name, env), name, env)
  {
    var v := Vacate(s, name);
    var t := GrantNext(v, name, env);
    VacateKeeps(s, name);
    VacateRest(s, name);
    hide Inv, LockOk, LeasesOk, QueueOk, GrantNext, Rows, SameLock, Bare, Serves, ServesNobody, OthersSame;
    GrantServes(v, name, env);
    SameStart(s, v, t, name, env);
    forall i | 0 <= i < |s.leases| && s.leases[i].lockName == name ensures !t.leases[i].active {
      assert t.leases[i] == v.leases[i];
    }
  }

  /** Who is served depends only on the queue and the cooldowns. */
  lemma SameStart(s: State, v: State, t: State, name: string, env: Env)
    requires v.queue == s.queue && v.accelerated == s.accelerated
    requires OthersSame(v, t, name) && forall n | n != name :: SameLock(s, v, n)
    requires ServesNobody(v, t, name, env) || exists k :: Serves(v, t, name, env, k)
    ensures OthersSame(s, t, name)
    ensures ServesNobody(s, t, name, env) || exists k :: Serves(s, t, name, env, k)
  {
    hide SameLock, Rows, Leased, AllPassedOver, Bare;
    SameRestTrans(s, v, t, name);
    if k :| Serves(v, t, name, env, k) {
      assert Serves(s, t, name, env, k);
    }
  }

  lemma VacateRest(s: State, name: string)
    requires name in s.locks
    ensures forall n | n != name :: SameLock(s, Vacate(s, name), n)
  {
    forall n | n != name ensures SameLock(s, Vacate(s, name), n) {
      VacateOthers(s, name, n);
    }
  }

  /** Only the holder releases: a stranger changes nothing, a count above one goes down by one,
      and the last release ends the lease and passes the lock on. */
  lemma ReleaseExact(s: State, name: string, holder: string, env: Env)
    requires Inv(s)
    ensures var r, t := Releasing(s, name, holder), Release(s, name, holder, env);
            && (name !in s.locks ==> r == NoSuchLock && t == s)
            && (name in s.locks && s.locks[name].status != Held ==> r == NotHeld && t == s)
            && (IsHeld(s, name) ==>
                  var l := s.locks[name];
                  && (holder != l.holder ==> r == NotHolder && t == s)
                  && (holder == l.holder && l.count > 1 ==>
                        r == CountedDown(l.count - 1)
                        && t == s.(locks := s.locks[name := Lock(Held, holder, l.reentrant, l.count - 1)]))
                  && (holder == l.holder && l.count <= 1 ==> r == Released && PassedOn(s, t, name, env)))
  {
    hide PassedOn, GrantNext, Vacate;
    assert LockOk(s, name);
    if IsHeld(s, name) {
      FreedPassesOn(s, name, env);
    }
  }

  /** A timer that fires ends the lease of its lock and passes the lock on. */
  lemma ExpireExact(s: State, name: string, env: Env)
    requires Inv(s)
    ensures var t := Expire(s, name, env);
            if IsHeld(s, name) then PassedOn(s, t, name, env) else t == s
  {
    hide PassedOn, GrantNext, Inv;
    if IsHeld(s, name) {
      FreedPassesOn(s, name, env);
    }
  }

  // ---------------------------------------------------------------- requests

  /** The guards let the request through. */
  predicate LetThrough(name: string, holder: string, leaseSec: int, env: Env) {
    leaseSec > 0 && env.admits(name, holder, leaseSec) && env.withinBudget(holder, name, leaseSec) && env.underLimit(holder)
  }

  /** A request that the guards let through takes a free lock for the seconds asked for or a shorter
      cooldown, counts a reentrant hold up, and otherwise changes nothing or waits; any other request
      changes nothing. */
  lemma AcquireExact(s: State, name: string, holder: string, leaseSec: int, reentrant: bool, env: Env)
    requires Inv(s)
    ensures var r, t := AcquireOutcome(s, name, holder, leaseSec, reentrant, env), Acquire(s, name, holder, leaseSec, reentrant, env);
            && (r == BudgetRejected <==> leaseSec > 0 && env.admits(name, holder, leaseSec) && !env.withinBudget(holder, name, leaseSec))
            && (!LetThrough(name, holder, leaseSec, env) ==> (r == BudgetRejected || r == Refused) && t == s)
            && (LetThrough(name, holder, leaseSec, env) && !IsHeld(s, name) ==>
                  && r == Acquired && OthersSame(s, t, name) && t.queue == s.queue
                  && Leased(t, name, holder, reentrant,
                            if name in s.accelerated && 0 < s.accelerated[name] < leaseSec then s.accelerated[name] else leaseSec,
                            env.now))
            && (LetThrough(name, holder, leaseSec, env) && IsHeld(s, name) && s.locks[name].holder == holder ==>
                  if s.locks[name].reentrant && reentrant
                  then r == Acquired && t == s.(locks := s.locks[name := Lock(Held, holder, true, s.locks[name].count + 1)])
                  else r == Refused && t == s)
  {
    hide Leased, Hold, Rows, SeesCycle;
    if !IsHeld(s, name) {
      FreeIsBare(s, name);
      hide Inv, SameLock, Bare;
      TakenFor(s, name, holder, reentrant, CappedLease(s, name, leaseSec), env.now);
      HoldRest(s, name, holder, reentrant, CappedLease(s, name, leaseSec), env.now);
    }
  }

  /** A request for a lock that another holds closes a cycle and is refused, or is queued already and
      refused, or waits. */
  lemma WaitExact(s: State, name: string, holder: string, leaseSec: int, reentrant: bool, env: Env)
    requires QueueOk(s)
    requires IsHeld(s, name) && s.locks[name].holder != holder && LetThrough(name, holder, leaseSec, env)
    ensures var r, t := AcquireOutcome(s, name, holder, leaseSec, reentrant, env), Acquire(s, name, holder, leaseSec, reentrant, env);
            var q := Rows(s.queue, name);
            var cycle := CycleReachable(WaitGraph(s) + {(holder, s.locks[name].holder)}, holder);
            var waiting := exists i :: 0 <= i < |q| && q[i].holder == holder;
            && (r == Deadlock <==> cycle)
            && (r == Refused <==> !cycle && waiting)
            && (r == Queued(|q| + 1) <==> !cycle && !waiting)
            && (cycle || waiting ==> t == s)
            && (!cycle && !waiting ==> Joined(s, t, name, holder, leaseSec, reentrant, env))
  {
    hide Rows, CycleReachable, WaitGraph, QueueUp, InQueue, Joined, QueueOk;
    InQueueRows(Rows(s.queue, name), holder);
    if !SeesCycle(s, holder, s.locks[name].holder) && !InQueue(Rows(s.queue, name), holder) {
      QueueUpJoins(s, name, holder, leaseSec, reentrant, env);
    }
  }

  lemma InQueueRows(q: seq<WaitItem>, holder: string)
    ensures InQueue(q, holder) <==> exists i :: 0 <= i < |q| && q[i].holder == holder
  {
  }

  /** The holder waits for 30 seconds, at the end of the queue or, with priority, at its front. */
  ghost predicate Joined(s: State, t: State, name: string, holder: string, leaseSec: int, reentrant: bool, env: Env) {
    var item := WaitItem(0, name, holder, reentrant, leaseSec, env.now, env.now + 30 * SECOND);
    && t == s.(queue := t.queue, nextId := t.nextId)
    && Entries(Rows(t.queue, name)) == (if env.isGold(holder) then [item] + Entries(Rows(s.queue, name))
                                        else Entries(Rows(s.queue, name)) + [item])
    && forall n | n != name :: Rows(t.queue, n) == Rows(s.queue, n)
  }

  lemma QueueUpJoins(s: State, name: string, holder: string, leaseSec: int, reentrant: bool, env: Env)
    requires QueueOk(s) && !InQueue(Rows(s.queue, name), holder)
    ensures Joined(s, QueueUp(s, name, holder, leaseSec, reentrant, env), name, holder, leaseSec, reentrant, env)
  {
    hide QueueOk, QueueUp, Rows, InQueue, Entries;
    QueueUpOnly(s, name, holder, leaseSec, reentrant, env);
    QueueUpRows(s, name, holder, leaseSec, reentrant, env);
  }

  lemma QueueUpOnly(s: State, name: string, holder: string, leaseSec: int, reentrant: bool, env: Env)
    ensures var t := QueueUp(s, name, holder, leaseSec, reentrant, env); t == s.(queue := t.queue, nextId := t.nextId)
  {
    hide Rows, Without, OfHolder, NotOfHolder;
  }

  /** The wait-for graph has an edge for each row of the queue, from its holder to the holder of the
      lock, and no other. */
  lemma GraphExact(s: State, a: string, b: string)
    requires Inv(s)
    ensures (a, b) in WaitGraph(s) <==>
            exists r :: r in s.queue && r.holder == a && IsHeld(s, r.lockName) && s.locks[r.lockName].holder == b
    ensures forall r | r in s.queue :: IsHeld(s, r.lockName) && s.locks[r.lockName].holder != r.holder
  {
    forall r | r in s.queue ensures Waits(s, r) {
      assert LockOk(s, r.lockName);
    }
  }

  /** Cancelling takes exactly the holder's rows from the queues. */
  lemma CancelExact(s: State, holder: string, r: WaitItem)
    requires QueueOk(s)
    ensures CancelWaits(s, holder) == s.(queue := CancelWaits(s, holder).queue)
    ensures r in CancelWaits(s, holder).queue <==> r in s.queue && r.holder != holder
  {
    WithoutMember(s.queue, WaitsOf(s.queue, holder));
    if r in s.queue && r.id in WaitsOf(s.queue, holder) {
      var own :| own in s.queue && own.holder == holder && own.id == r.id;
      IdUnique(s.queue, s.nextId, own, r);
    }
  }

  /** The cooldown of a lock, set or taken away; nothing else. */
  lemma AcceleratedExact(s: State, name: string, enabled: bool, cooldownSec: int)
    ensures var t := SetAccelerated(s, name, enabled, cooldownSec);
            && t == s.(accelerated := t.accelerated)
            && (name in t.accelerated <==> enabled) && (enabled ==> t.accelerated[name] == cooldownSec)
            && forall n | n != name :: (n in t.accelerated <==> n in s.accelerated)
                                       && (n in s.accelerated ==> t.accelerated[n] == s.accelerated[n])
  {
  }

  // ---------------------------------------------------------------- batches

  lemma {:induction false} TakeEachLeases(s: State, names: seq<string>, holder: string, leaseSec: int, reentrant: bool, env: Env,
                                          name: string)
    requires Takeable(s, names)
    ensures var (u, k) := TakeEach(s, names, holder, leaseSec, reentrant, env);
            && k <= |names|
            && (name in names[..k] ==> Leased(u, name, holder, reentrant, leaseSec, env.now))
            && (name !in names[..k] ==> SameLock(s, u, name))
            && (forall i | 0 <= i < k :: env.admits(names[i], holder, leaseSec) && env.withinBudget(holder, names[i], leaseSec))
            && (k < |names| ==>
                  && NoQueue(u, names[k], holder, leaseSec, reentrant, env)
                     == (if env.admits(names[k], holder, leaseSec) then OverBudget else Rejected)
                  && !(env.admits(names[k], holder, leaseSec) && env.withinBudget(holder, names[k], leaseSec)))
    decreases |names|
  {
    hide Hold, Takeable, Leased, NoQueue, SameLock, Rows, AcquireNoQueue, Fails;
    if names != [] {
      TakeHead(s, names, holder, leaseSec, reentrant, env);
    }
    if names != [] && !Fails(NoQueue(s, names[0], holder, leaseSec, reentrant, env)) {
      var n, rest := names[0], names[1..];
      var t := AcquireNoQueue(s, n, holder, leaseSec, reentrant, env);
      TakeEachLeases(t, rest, holder, leaseSec, reentrant, env, name);
      var (u, k) := TakeEach(t, rest, holder, leaseSec, reentrant, env);
      assert names[..k + 1] == [n] + rest[..k];
      if name == n {
        StillLeased(t, u, n, holder, reentrant, leaseSec, env.now);
      } else if name !in rest[..k] {
        SameLockTrans(s, t, u, name);
      }
    } else {
      SameLockRefl(s, name);
    }
  }

  lemma SameLockTrans(s: State, t: State, u: State, n: string)
    requires SameLock(s, t, n) && SameLock(t, u, n)
    ensures SameLock(s, u, n)
  {
  }

  lemma SameLockRefl(s: State, name: string)
    ensures SameLock(s, s, name)
  {
  }

  lemma TakeHead(s: State, names: seq<string>, holder: string, leaseSec: int, reentrant: bool, env: Env)
    requires Takeable(s, names) && names != []
    ensures var n, o := names[0], NoQueue(s, names[0], holder, leaseSec, reentrant, env);
            var t := AcquireNoQueue(s, n, holder, leaseSec, reentrant, env);
            && o == (if !env.admits(n, holder, leaseSec) then Rejected
                     else if !env.withinBudget(holder, n, leaseSec) then OverBudget else Taken)
            && (Fails(o) <==> o != Taken)
            && (o == Taken ==>
                  && Leased(t, n, holder, reentrant, leaseSec, env.now) && Takeable(t, names[1..]) && n !in names[1..]
                  && forall m | m != n :: SameLock(s, t, m))
  {
    hide Rows, Leased, SameLock, Hold;
    TakeableHead(s, names);
    TakenFor(s, names[0], holder, reentrant, leaseSec, env.now);
    TakeableRest(s, names, holder, leaseSec, reentrant, env.now);
    HoldRest(s, names[0], holder, reentrant, leaseSec, env.now);
  }

  lemma StillLeased(t: State, u: State, name: string, holder: string, reentrant: bool, seconds: int, now: int)
    requires Leased(t, name, holder, reentrant, seconds, now) && SameLock(t, u, name)
    ensures Leased(u, name, holder, reentrant, seconds, now)
  {
  }

  lemma TakeableRest(s: State, names: seq<string>, holder: string, leaseSec: int, reentrant: bool, now: int)
    requires Takeable(s, names) && names != []
    ensures Takeable(Hold(s, names[0], holder, reentrant, leaseSec, now), names[1..])
  {
    var t := Hold(s, names[0], holder, reentrant, leaseSec, now);
    TakeableHead(s, names);
    forall n | n in names[1..] ensures !IsHeld(t, n) && Bare(t, n) && Rows(t.queue, n) == [] {
      HoldOthers(s, names[0], holder, reentrant, leaseSec, now, n);
    }
  }

  /** What a batch answers and takes: the first name that is held decides; else the first name that a guard
      refuses, and which guard that was; else each name is leased for the whole seconds asked for. */
  lemma BatchExact(s: State, names: seq<string>, holder: string, leaseSec: int, reentrant: bool, env: Env)
    requires Inv(s) && Distinct(names)
    ensures var (t, r) := BatchOf(s, names, holder, leaseSec, reentrant, env);
            match r
            case BatchAcquired => forall n | n in names :: Leased(t, n, holder, reentrant, leaseSec, env.now)
            case BatchHeldBy(lock, owner) =>
              t == s && exists i :: 0 <= i < |names| && names[i] == lock && IsHeld(s, lock) && s.locks[lock].holder == owner
                                    && forall j | 0 <= j < i :: !IsHeld(s, names[j])
            case BatchOverBudget(lock) =>
              FirstRefused(names, lock, holder, leaseSec, env) && env.admits(lock, holder, leaseSec)
            case BatchRefused(lock) =>
              FirstRefused(names, lock, holder, leaseSec, env) && !env.admits(lock, holder, leaseSec)
            case BatchInvalid => false
  {
    hide Inv, TakeEach, ReleaseBack, NoQueue, Leased, Takeable;
    var i := FirstHeld(s, names);
    if i < |names| {
      assert names[i] in names;
    } else {
      AllTakeable(s, names);
      var (u, k) := TakeEach(s, names, holder, leaseSec, reentrant, env);
      forall n ensures k <= |names| && (n in names[..k] ==> Leased(u, n, holder, reentrant, leaseSec, env.now)) {
        TakeEachLeases(s, names, holder, leaseSec, reentrant, env, n);
      }
      TakeEachLeases(s, names, holder, leaseSec, reentrant, env, holder);
      assert k == |names| ==> names[..k] == names;
      assert k < |names| ==> FirstRefused(names, names[k], holder, leaseSec, env);
    }
  }

  /** The first name for which a guard says no. */
  ghost predicate FirstRefused(names: seq<string>, lock: string, holder: string, leaseSec: int, env: Env) {
    exists i :: 0 <= i < |names| && names[i] == lock
      && !(env.admits(lock, holder, leaseSec) && env.withinBudget(holder, lock, leaseSec))
      && forall j | 0 <= j < i :: env.admits(names[j], holder, leaseSec) && env.withinBudget(holder, names[j], leaseSec)
  }
}
