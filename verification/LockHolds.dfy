/** Who can end the hold of a lock: over whole runs, nobody but its holder and its timer. */
module LockHolds {
  import opened Clock
  import opened Graphs
  import opened Fencing
  import opened LockTables
  import opened LockSpec
  import opened LockInvariants
  import opened LockRuns
  import opened LockMeaning

  /** The same hold: same holder, and the same lease up to its end, so the same token. */
  ghost predicate SameHold(s: State, t: State, name: string) {
    && IsHeld(s, name) && IsHeld(t, name)
    && t.locks[name] == s.locks[name].(count := t.locks[name].count)
    && |ActiveLeases(s.leases, name)| == 1 && |ActiveLeases(t.leases, name)| == 1
    && ActiveLeases(t.leases, name)[0]
       == ActiveLeases(s.leases, name)[0].(expiresAt := ActiveLeases(t.leases, name)[0].expiresAt)
  }

  /** The count of a hold after an event: up with a request of its own that is let through, down
      with a release of its own. */
  function CountAfter(e: Event, name: string, l: Lock): int {
    match e.op
    case AcquireOp(n, h, leaseSec, reentrant) =>
      if n == name && h == l.holder && l.reentrant && reentrant && LetThrough(name, h, leaseSec, e.env)
      then l.count + 1 else l.count
    case ReleaseOp(n, h) => if n == name && h == l.holder then l.count - 1 else l.count
    case _ => l.count
  }

  lemma SameLockSameHold(s: State, t: State, name: string)
    requires Inv(s) && IsHeld(s, name) && SameLock(s, t, name)
    ensures SameHold(s, t, name) && t.locks[name].count == s.locks[name].count
  {
    assert LockOk(s, name);
  }

  lemma {:induction false} TakeEachOthers(s: State, names: seq<string>, holder: string, leaseSec: int, reentrant: bool, env: Env,
                                          name: string)
    requires name !in names
    ensures SameLock(s, TakeEach(s, names, holder, leaseSec, reentrant, env).0, name)
    decreases |names|
  {
    if names != [] && !Fails(NoQueue(s, names[0], holder, leaseSec, reentrant, env)) {
      var t := AcquireNoQueue(s, names[0], holder, leaseSec, reentrant, env);
      assert names[0] in names;
      HoldOthers(s, names[0], holder, reentrant, leaseSec, env.now, name);
      assert SameLock(s, t, name);
      hide AcquireNoQueue;
      TakeEachOthers(t, names[1..], holder, leaseSec, reentrant, env, name);
    }
  }

  lemma {:induction false} ReleaseBackOthers(s: State, names: seq<string>, holder: string, env: Env, name: string)
    requires Inv(s) && name !in names
    ensures SameLock(s, ReleaseBack(s, names, holder, env), name)
    decreases |names|
  {
    if names != [] {
      var last := names[|names| - 1];
      var t := Release(s, last, holder, env);
      assert SameLock(s, t, name) by {
        ReleaseExact(s, last, holder, env);
      }
      ReleaseKeeps(s, last, holder, env);
      hide Inv, Release, SameLock;
      ReleaseBackOthers(t, names[..|names| - 1], holder, env, name);
      SameLockTrans(s, t, ReleaseBack(s, names, holder, env), name);
    }
  }

  /** A batch does nothing to a lock that is held, whoever asks. */
  lemma BatchOthers(s: State, names: seq<string>, holder: string, leaseSec: int, reentrant: bool, env: Env, name: string)
    requires Inv(s) && IsHeld(s, name) && holder != "" && leaseSec > 0 && "" !in names
    ensures SameLock(s, BatchOf(s, names, holder, leaseSec, reentrant, env).0, name)
  {
    hide Inv, TakeEach, ReleaseBack, NoQueue, Deactivate;
    if FirstHeld(s, names) == |names| {
      assert name !in names;
      var (u, n) := TakeEach(s, names, holder, leaseSec, reentrant, env);
      TakeEachKeeps(s, names, holder, leaseSec, reentrant, env);
      TakeEachOthers(s, names, holder, leaseSec, reentrant, env, name);
      hide SameLock;
      if n < |names| {
        assert name !in names[..n];
        ReleaseBackOthers(u, names[..n], holder, env, name);
        SameLockTrans(s, u, ReleaseBack(u, names[..n], holder, env), name);
      }
    }
  }

  lemma AcquireHold(s: State, n: string, holder: string, leaseSec: int, reentrant: bool, env: Env, name: string)
    requires Inv(s) && IsHeld(s, name)
    ensures var t := Acquire(s, n, holder, leaseSec, reentrant, env);
            && SameHold(s, t, name)
            && t.locks[name].count == CountAfter(Event(AcquireOp(n, holder, leaseSec, reentrant), env), name, s.locks[name])
  {
    InvStore(s);
    hide Inv, QueueOk, Acquire, AcquireOutcome, SameHold, Leased, SameLock, Rows, WaitGraph, CycleReachable;
    var t := Acquire(s, n, holder, leaseSec, reentrant, env);
    AcquireExact(s, n, holder, leaseSec, reentrant, env);
    if !LetThrough(n, holder, leaseSec, env) {
      Unmoved(s, t, name);
    } else if !IsHeld(s, n) {
      SameLockSameHold(s, t, name);
    } else if s.locks[n].holder != holder {
      WaitExact(s, n, holder, leaseSec, reentrant, env);
      Unmoved(s, t, name);
    } else if s.locks[n].reentrant && reentrant {
      Recounted(s, n, s.locks[n].count + 1, name);
    } else {
      Unmoved(s, t, name);
    }
  }

  lemma Recounted(s: State, n: string, count: int, name: string)
    requires Inv(s) && IsHeld(s, name) && n in s.locks
    ensures var t := s.(locks := s.locks[n := s.locks[n].(count := count)]);
            SameHold(s, t, name) && t.locks[name].count == if n == name then count else s.locks[name].count
  {
    assert LockOk(s, name);
  }

  lemma NewEndHold(s: State, t: State, n: string, expiry: int, name: string)
    requires Inv(s) && IsHeld(s, name)
    requires t == s.(leases := SetExpiry(s.leases, n, expiry), timers := s.timers[n := expiry])
    ensures SameHold(s, t, name) && t.locks == s.locks
  {
    assert LockOk(s, name);
    ActiveAfterSetExpiry(s.leases, n, expiry, name);
  }

  lemma RenewHold(s: State, n: string, holder: string, addSec: int, now: int, name: string)
    requires Inv(s) && IsHeld(s, name)
    ensures SameHold(s, Renew(s, n, holder, addSec, now), name) && Renew(s, n, holder, addSec, now).locks == s.locks
  {
    hide Inv, SameHold, SetExpiry;
    if Renewable(s, n, holder, now) {
      var a := ActiveLeases(s.leases, n);
      var was := a[|a| - 1].expiresAt;
      NewEndHold(s, Renew(s, n, holder, addSec, now), n, was + RenewSeconds(s, n, was, addSec, now) * SECOND, name);
    } else {
      Unmoved(s, s, name);
    }
  }

  lemma ShortenHold(s: State, n: string, leaseSec: int, now: int, name: string)
    requires Inv(s) && IsHeld(s, name)
    ensures SameHold(s, Shorten(s, n, leaseSec, now), name) && Shorten(s, n, leaseSec, now).locks == s.locks
  {
    hide Inv, SameHold, SetExpiry;
    var a := ActiveLeases(s.leases, n);
    if a != [] && leaseSec > 0 {
      var wanted := now + leaseSec * SECOND;
      NewEndHold(s, Shorten(s, n, leaseSec, now), n,
                 if wanted > a[|a| - 1].expiresAt then a[|a| - 1].expiresAt else wanted, name);
    } else {
      Unmoved(s, s, name);
    }
  }

  /** One event that is not the expiry of the lock leaves the hold as it is, with its new count; or the
      count was one, the holder has released it, and the lock is passed on. */
  lemma HoldStep(s: State, e: Event, name: string)
    requires Inv(s) && Proper(e.op) && IsHeld(s, name) && e.op != ExpireOp(name)
    ensures var t, n := Step(s, e.op, e.env), CountAfter(e, name, s.locks[name]);
            if n >= 1 then SameHold(s, t, name) && t.locks[name].count == n
            else e.op == ReleaseOp(name, s.locks[name].holder) && PassedOn(s, t, name, e.env)
  {
    var t := Step(s, e.op, e.env);
    HolderNamed(s, name);
    hide Inv, Acquire, BatchOf, Release, Expire, Renew, Shorten, SameLock, SameHold, PassedOn;
    match e.op
    case AcquireOp(n, holder, leaseSec, reentrant) => AcquireHold(s, n, holder, leaseSec, reentrant, e.env, name);
    case BatchOp(names, holder, leaseSec, reentrant) =>
      BatchOthers(s, names, holder, leaseSec, reentrant, e.env, name);
      SameLockSameHold(s, t, name);
    case ReleaseOp(n, holder) => ReleaseHold(s, n, holder, e.env, name);
    case ExpireOp(n) =>
      ExpireOther(s, n, e.env, name);
      SameLockSameHold(s, t, name);
    case RenewOp(n, holder, addSec) => RenewHold(s, n, holder, addSec, e.env.now, name);
    case ShortenOp(n, leaseSec) => ShortenHold(s, n, leaseSec, e.env.now, name);
    case _ => Unmoved(s, t, name);
  }

  lemma Unmoved(s: State, t: State, name: string)
    requires Inv(s) && IsHeld(s, name) && t.locks == s.locks && t.leases == s.leases
    ensures SameHold(s, t, name) && t.locks[name].count == s.locks[name].count
  {
    assert LockOk(s, name);
  }

  lemma ExpireOther(s: State, n: string, env: Env, name: string)
    requires Inv(s) && n != name
    ensures SameLock(s, Expire(s, n, env), name)
  {
    hide Inv, Expire, PassedOn;
    ExpireExact(s, n, env);
    if IsHeld(s, n) {
      PassedOnOther(s, Expire(s, n, env), n, env, name);
    }
  }

  lemma ReleaseHold(s: State, n: string, holder: string, env: Env, name: string)
    requires Inv(s) && IsHeld(s, name)
    ensures var t, c := Release(s, n, holder, env), CountAfter(Event(ReleaseOp(n, holder), env), name, s.locks[name]);
            if c >= 1 then SameHold(s, t, name) && t.locks[name].count == c
            else n == name && holder == s.locks[name].holder && PassedOn(s, t, name, env)
  {
    hide Inv, Release, Releasing, SameHold, PassedOn, SameLock;
    var t := Release(s, n, holder, env);
    HolderNamed(s, name);
    ReleaseExact(s, n, holder, env);
    if t == s {
      Unmoved(s, t, name);
    } else if s.locks[n].count > 1 {
      Recounted(s, n, s.locks[n].count - 1, name);
    } else if n != name {
      PassedOnOther(s, t, n, env, name);
      SameLockSameHold(s, t, name);
    }
  }

  lemma PassedOnOther(s: State, t: State, n: string, env: Env, name: string)
    requires PassedOn(s, t, n, env) && n != name
    ensures SameLock(s, t, name)
  {
  }

  /** How often `holder` releases the lock in a run. */
  function ReleasesBy(run: seq<Event>, name: string, holder: string): nat {
    if run == [] then 0
    else (if run[0].op == ReleaseOp(name, holder) then 1 else 0) + ReleasesBy(run[1..], name, holder)
  }

  /** Nobody but its holder ends a hold before its lease is over: as long as the timer of the lock has not
      fired and its holder has released it less often than it counts, it keeps holder, lease and token. */
  lemma {:induction false} HeldUntilReleased(s: State, run: seq<Event>, name: string)
    requires Inv(s) && AllProper(run) && IsHeld(s, name)
    requires forall e | e in run :: e.op != ExpireOp(name)
    requires ReleasesBy(run, name, s.locks[name].holder) < s.locks[name].count
    ensures var t := RunOf(s, run);
            && SameHold(s, t, name)
            && t.locks[name].count >= s.locks[name].count - ReleasesBy(run, name, s.locks[name].holder)
    decreases |run|
  {
    if run == [] {
      Unmoved(s, s, name);
    } else {
      assert run[0] in run;
      hide Inv, Step, PassedOn, ActiveLeases;
      var t := Step(s, run[0].op, run[0].env);
      HoldStep(s, run[0], name);
      StepKeepsInv(s, run[0].op, run[0].env);
      HeldUntilReleased(t, run[1..], name);
    }
  }

  /** And the release that takes the count to zero does end it: k-th of k when nothing counted up between. */
  lemma LastReleaseEnds(s: State, run: seq<Event>, name: string, env: Env)
    requires Inv(s) && AllProper(run) && IsHeld(s, name)
    requires forall e | e in run :: e.op != ExpireOp(name) && !(e.op.AcquireOp? && e.op.name == name && e.op.holder == s.locks[name].holder)
    requires ReleasesBy(run, name, s.locks[name].holder) == s.locks[name].count - 1
    ensures var t := RunOf(s, run);
            PassedOn(t, Release(t, name, s.locks[name].holder, env), name, env)
  {
    hide Inv, PassedOn, SameHold, RunOf;
    NoUpsCount(s, run, name);
    ReleaseExact(RunOf(s, run), name, s.locks[name].holder, env);
  }

  lemma {:induction false} NoUpsCount(s: State, run: seq<Event>, name: string)
    requires Inv(s) && AllProper(run) && IsHeld(s, name)
    requires forall e | e in run :: e.op != ExpireOp(name) && !(e.op.AcquireOp? && e.op.name == name && e.op.holder == s.locks[name].holder)
    requires ReleasesBy(run, name, s.locks[name].holder) < s.locks[name].count
    ensures var t := RunOf(s, run);
            && Inv(t) && IsHeld(t, name) && t.locks[name].holder == s.locks[name].holder
            && t.locks[name].count == s.locks[name].count - ReleasesBy(run, name, s.locks[name].holder)
    decreases |run|
  {
    if run != [] {
      assert run[0] in run;
      hide Inv, Step, PassedOn, ActiveLeases;
      var t := Step(s, run[0].op, run[0].env);
      HoldStep(s, run[0], name);
      StepKeepsInv(s, run[0].op, run[0].env);
      NoUpsCount(t, run[1..], name);
    }
  }
}
