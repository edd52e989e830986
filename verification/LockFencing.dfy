/** What fencing tokens and leases say to each other as long as only the lock manager
    issues tokens for its locks. */
module LockFencing {
  import opened Fencing
  import opened LockTables
  import opened LockSpec
  import opened LockInvariants
  import opened LockRuns
  import opened LockEffects
  import opened Clock

  /** Every active lease carries the newest sequence of its lock, and the token table knows
      its holder. */
  ghost predicate LeasesCurrent(s: State) {
    forall l | l in s.leases && l.active :: LeaseCurrent(s.fencing, l)
  }

  ghost predicate LeaseCurrent(f: Store, l: Lease) {
    && l.token.path == l.lockName
    && l.token.sequence == CurrentSequence(f, l.lockName)
    && l.token in f.tokens && f.tokens[l.token].holder == l.holder
  }

  lemma HoldCurrent(s: State, name: string, holder: string, reentrant: bool, leaseSec: int, now: int)
    requires LeasesCurrent(s) && StoreOk(s.fencing) && Bare(s, name) && Issuable(name, holder, leaseSec)
    ensures LeasesCurrent(Hold(s, name, holder, reentrant, leaseSec, now))
  {
    var t := Hold(s, name, holder, reentrant, leaseSec, now);
    var issued := t.leases[|s.leases|];
    forall l | l in t.leases && l.active ensures LeaseCurrent(t.fencing, l) {
      if l in s.leases {
        ActiveMember(s.leases, name, l);
        assert LeaseCurrent(s.fencing, l);
      } else {
        assert l == issued;
        assert NextSequence(s.fencing, name) >= 1;
      }
    }
  }

  lemma VacateCurrent(s: State, name: string)
    requires LeasesCurrent(s) && name in s.locks
    ensures LeasesCurrent(Vacate(s, name))
  {
    var t := Vacate(s, name);
    forall l | l in t.leases && l.active ensures LeaseCurrent(t.fencing, l) {
      var i :| 0 <= i < |t.leases| && t.leases[i] == l;
      assert s.leases[i] in s.leases && s.leases[i] == l;
    }
  }

  lemma GrantCurrent(s: State, name: string, env: Env)
    requires InvBut(s, name) && name in s.locks && LeasesCurrent(s)
    ensures LeasesCurrent(GrantNext(s, name, env))
  {
    hide LeasesCurrent, LockOk, Hold, Without, Rows;
    var q := Rows(s.queue, name);
    var k := SkipCount(q, env);
    var s' := s.(queue := Without(s.queue, if k == |q| then Ids(q) else Ids(q[..k + 1])));
    OtherQueueCurrent(s, s');
    if k < |q| {
      GranteeGone(s, name, k);
      HoldCurrent(s', name, q[k].holder, q[k].reentrant, CappedLease(s, name, q[k].leaseSec), env.now);
    }
  }

  lemma OtherQueueCurrent(s: State, t: State)
    requires LeasesCurrent(s) && t.leases == s.leases && t.fencing == s.fencing
    ensures LeasesCurrent(t)
  {
  }

  lemma FreedCurrent(s: State, name: string, env: Env)
    requires Inv(s) && LeasesCurrent(s) && name in s.locks
    ensures LeasesCurrent(GrantNext(Vacate(s, name), name, env))
  {
    hide LeasesCurrent, Inv, InvBut, GrantNext;
    VacateKeeps(s, name);
    VacateCurrent(s, name);
    GrantCurrent(Vacate(s, name), name, env);
  }

  lemma ReleaseCurrent(s: State, name: string, holder: string, env: Env)
    requires Inv(s) && LeasesCurrent(s)
    ensures LeasesCurrent(Release(s, name, holder, env))
  {
    hide LeasesCurrent, Inv, GrantNext;
    if Releasing(s, name, holder) == Released {
      FreedCurrent(s, name, env);
    } else {
      OtherQueueCurrent(s, Release(s, name, holder, env));
    }
  }

  lemma TakeFreeCurrent(s: State, name: string, holder: string, reentrant: bool, leaseSec: int, now: int)
    requires Inv(s) && LeasesCurrent(s) && !IsHeld(s, name) && Issuable(name, holder, leaseSec)
    ensures LeasesCurrent(Hold(s, name, holder, reentrant, leaseSec, now))
  {
    hide LeasesCurrent, LockOk, Hold;
    FreeIsBare(s, name);
    HoldCurrent(s, name, holder, reentrant, leaseSec, now);
  }

  lemma AcquireCurrent(s: State, name: string, holder: string, leaseSec: int, reentrant: bool, env: Env)
    requires Inv(s) && LeasesCurrent(s) && name != "" && holder != ""
    ensures LeasesCurrent(Acquire(s, name, holder, leaseSec, reentrant, env))
  {
    hide LeasesCurrent, Inv, Hold, SeesCycle, Rows, InQueue;
    if AcquireOutcome(s, name, holder, leaseSec, reentrant, env) == Acquired && !IsHeld(s, name) {
      TakeFreeCurrent(s, name, holder, reentrant, CappedLease(s, name, leaseSec), env.now);
    } else {
      OtherQueueCurrent(s, Acquire(s, name, holder, leaseSec, reentrant, env));
    }
  }

  lemma {:induction false} TakeEachCurrent(s: State, names: seq<string>, holder: string, leaseSec: int, reentrant: bool, env: Env)
    requires Inv(s) && LeasesCurrent(s) && holder != "" && leaseSec > 0 && "" !in names
    ensures LeasesCurrent(TakeEach(s, names, holder, leaseSec, reentrant, env).0)
    decreases |names|
  {
    hide LeasesCurrent, Inv, Hold;
    if names != [] && !Fails(NoQueue(s, names[0], holder, leaseSec, reentrant, env)) {
      var t := AcquireNoQueue(s, names[0], holder, leaseSec, reentrant, env);
      NoQueueKeeps(s, names[0], holder, leaseSec, reentrant, env);
      if IsHeld(s, names[0]) {
        OtherQueueCurrent(s, t);
      } else {
        TakeFreeCurrent(s, names[0], holder, reentrant, leaseSec, env.now);
      }
      TakeEachCurrent(t, names[1..], holder, leaseSec, reentrant, env);
    }
  }

  lemma {:induction false} ReleaseBackCurrent(s: State, names: seq<string>, holder: string, env: Env)
    requires Inv(s) && LeasesCurrent(s)
    ensures LeasesCurrent(ReleaseBack(s, names, holder, env))
    decreases |names|
  {
    hide LeasesCurrent, Inv, Release;
    if names != [] {
      var last := names[|names| - 1];
      ReleaseKeeps(s, last, holder, env);
      ReleaseCurrent(s, last, holder, env);
      ReleaseBackCurrent(Release(s, last, holder, env), names[..|names| - 1], holder, env);
    }
  }

  lemma BatchCurrent(s: State, names: seq<string>, holder: string, leaseSec: int, reentrant: bool, env: Env)
    requires Inv(s) && LeasesCurrent(s) && holder != "" && leaseSec > 0 && "" !in names
    ensures LeasesCurrent(BatchOf(s, names, holder, leaseSec, reentrant, env).0)
  {
    hide LeasesCurrent, Inv, TakeEach, ReleaseBack, NoQueue;
    TakeEachCurrent(s, names, holder, leaseSec, reentrant, env);
    TakeEachKeeps(s, names, holder, leaseSec, reentrant, env);
    var (t, k) := TakeEach(s, names, holder, leaseSec, reentrant, env);
    if k < |names| {
      ReleaseBackCurrent(t, names[..k], holder, env);
    }
  }

  lemma ExpiryCurrent(s: State, name: string, at: int, timers: map<string, int>)
    requires LeasesCurrent(s)
    ensures LeasesCurrent(s.(leases := SetExpiry(s.leases, name, at), timers := timers))
  {
    var t := s.(leases := SetExpiry(s.leases, name, at), timers := timers);
    forall l | l in t.leases && l.active ensures LeaseCurrent(t.fencing, l) {
      var i :| 0 <= i < |t.leases| && t.leases[i] == l;
      assert s.leases[i] in s.leases && LeaseCurrent(s.fencing, s.leases[i]);
    }
  }

  lemma RevokeCurrent(s: State, token: Token)
    requires LeasesCurrent(s)
    ensures LeasesCurrent(s.(fencing := AfterRevoke(s.fencing, token)))
  {
    var t := s.(fencing := AfterRevoke(s.fencing, token));
    forall l | l in t.leases && l.active ensures LeaseCurrent(t.fencing, l) {
      assert LeaseCurrent(s.fencing, l);
    }
  }

  lemma StepCurrent(s: State, op: LockOp, env: Env)
    requires Inv(s) && LeasesCurrent(s) && Proper(op) && !op.IssueTokenOp?
    ensures LeasesCurrent(Step(s, op, env))
  {
    hide LeasesCurrent, Inv, Acquire, BatchOf, Release, GrantNext, SetExpiry, AfterRevoke, ActiveLeases;
    match op
    case AcquireOp(name, holder, leaseSec, reentrant) => AcquireCurrent(s, name, holder, leaseSec, reentrant, env);
    case BatchOp(names, holder, leaseSec, reentrant) => BatchCurrent(s, names, holder, leaseSec, reentrant, env);
    case ReleaseOp(name, holder) => ReleaseCurrent(s, name, holder, env);
    case ExpireOp(name) => if IsHeld(s, name) { FreedCurrent(s, name, env); }
    case RenewOp(name, _, _) =>
      var t := Step(s, op, env);
      if t != s {
        ExpiryCurrent(s, name, t.timers[name], t.timers);
      }
    case ShortenOp(name, _) =>
      var t := Step(s, op, env);
      if t != s {
        ExpiryCurrent(s, name, t.timers[name], t.timers);
      }
    case RevokeTokenOp(token) => RevokeCurrent(s, token);
    case _ => OtherQueueCurrent(s, Step(s, op, env));
  }

  lemma {:induction false} RunCurrent(s: State, run: seq<Event>)
    requires Inv(s) && LeasesCurrent(s) && AllProper(run)
    requires forall e | e in run :: !e.op.IssueTokenOp?
    ensures LeasesCurrent(RunOf(s, run)) && Inv(RunOf(s, run))
    decreases |run|
  {
    hide Inv, LeasesCurrent, Step;
    if run != [] {
      assert run[0] in run;
      StepKeepsInv(s, run[0].op, run[0].env);
      StepCurrent(s, run[0].op, run[0].env);
      RunCurrent(Step(s, run[0].op, run[0].env), run[1..]);
    }
  }

  /** As long as only the lock manager issues tokens from the start, every active lease carries the
      current one in every reachable state. */
  lemma ReachableCurrent(fencing: Store, run: seq<Event>)
    requires StoreOk(fencing) && AllProper(run) && forall e | e in run :: !e.op.IssueTokenOp?
    ensures LeasesCurrent(RunOf(Initial(fencing), run)) && Inv(RunOf(Initial(fencing), run))
  {
    InitialOk(fencing);
    assert LeasesCurrent(Initial(fencing));
    hide Inv, LeasesCurrent;
    RunCurrent(Initial(fencing), run);
  }

  /** While a lock is held, no token but its lease's validates for it, and for nobody but its holder. */
  lemma OnlyTheHolderPasses(s: State, name: string, token: Token, holder: string, now: int)
    requires Inv(s) && LeasesCurrent(s) && IsHeld(s, name)
    requires Validate(s.fencing, token, name, holder, now) == TokenValid
    ensures |ActiveLeases(s.leases, name)| == 1
    ensures token == ActiveLeases(s.leases, name)[0].token && holder == s.locks[name].holder
  {
    assert LockOk(s, name);
    var lease := ActiveLeases(s.leases, name)[0];
    ActiveMember(s.leases, name, lease);
    assert LeaseCurrent(s.fencing, lease);
    assert 1 <= token.sequence < NextSequence(s.fencing, name);
  }

  /** A lock is taken with a token of its own that is good until the first end of the lease. */
  lemma TakenWithToken(s: State, name: string, holder: string, reentrant: bool, leaseSec: int, now: int, at: int)
    requires StoreOk(s.fencing) && Bare(s, name) && name != "" && holder != "" && leaseSec > 0
    ensures var t := Hold(s, name, holder, reentrant, leaseSec, now);
            && |ActiveLeases(t.leases, name)| == 1
            && var l := ActiveLeases(t.leases, name)[0];
               && l.token.path == name && l.token !in s.fencing.tokens
               && Validate(t.fencing, l.token, name, holder, at) == if at < l.expiresAt then TokenValid else TokenExpired
  {
    HoldOwn(s, name, holder, reentrant, leaseSec, now);
    assert NextSequence(s.fencing, name) >= 1;
    assert TokenRun(AfterIssue(s.fencing, name, holder, leaseSec, now), []) == AfterIssue(s.fencing, name, holder, leaseSec, now);
    GoodForItsLease(s.fencing, name, holder, leaseSec, now, [], at);
  }

  /** Renewing moves the lease and not the token: from the first end of the lease on its holder keeps
      the lock with a token that no longer validates. */
  lemma TokenNotRenewed(s: State, name: string, holder: string, reentrant: bool, leaseSec: int, now: int, addSec: int)
    requires Inv(s) && !IsHeld(s, name) && name != "" && holder != "" && leaseSec > 0 && addSec > 0
    requires name !in s.accelerated
    ensures var t := Hold(s, name, holder, reentrant, leaseSec, now);
            var u := Renew(t, name, holder, addSec, now);
            && IsHeld(u, name) && |ActiveLeases(u.leases, name)| == 1
            && var l := ActiveLeases(u.leases, name)[0];
               && l.expiresAt == now + (leaseSec + addSec) * SECOND
               && forall at | now + leaseSec * SECOND <= at < l.expiresAt ::
                    Validate(u.fencing, l.token, name, holder, at) == TokenExpired
  {
    var t := Hold(s, name, holder, reentrant, leaseSec, now);
    FreeIsBare(s, name);
    TakeFreeKeeps(s, name, holder, reentrant, leaseSec, now);
    HoldOwn(s, name, holder, reentrant, leaseSec, now);
    hide Inv, LockOk;
    RenewExact(t, name, holder, addSec, now);
    forall at | now + leaseSec * SECOND <= at
      ensures Validate(t.fencing, ActiveLeases(t.leases, name)[0].token, name, holder, at) == TokenExpired
    {
      InvStore(s);
      TakenWithToken(s, name, holder, reentrant, leaseSec, now, at);
    }
  }
}
