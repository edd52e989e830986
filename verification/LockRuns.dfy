/** Whole runs of the lock manager: any sequence of operations, each with its own clock
    and its own answers from the guards, by any callers, with lease timers and wait
    timeouts firing whenever they like. */
module LockRuns {
  import opened Clock
  import opened Graphs
  import opened Fencing
  import opened LockTables
  import opened LockSpec
  import opened LockInvariants

  datatype LockOp =
    | AcquireOp(name: string, holder: string, leaseSec: int, reentrant: bool)
    | BatchOp(names: seq<string>, holder: string, leaseSec: int, reentrant: bool)
    | ReleaseOp(name: string, holder: string)
    | ExpireOp(name: string)
    | TimeoutsOp
    | CancelOp(holder: string)
    | RenewOp(name: string, holder: string, addSec: int)
    | ShortenOp(name: string, leaseSec: int)
    | AccelerateOp(name: string, enabled: bool, cooldownSec: int)
    | IssueTokenOp(name: string, holder: string, leaseSec: int)  // a token issued behind the manager's back
    | RevokeTokenOp(token: Token)

  /** What the callers guarantee: names and holders are not empty, a batch has a positive lease. */
  predicate Proper(op: LockOp) {
    match op
    case AcquireOp(name, holder, _, _) => name != "" && holder != ""
    case BatchOp(names, holder, leaseSec, _) => "" !in names && holder != "" && leaseSec > 0
    case _ => true
  }

  ghost function Step(s: State, op: LockOp, env: Env): State {
    match op
    case AcquireOp(name, holder, leaseSec, reentrant) => Acquire(s, name, holder, leaseSec, reentrant, env)
    case BatchOp(names, holder, leaseSec, reentrant) => BatchOf(s, names, holder, leaseSec, reentrant, env).0
    case ReleaseOp(name, holder) => Release(s, name, holder, env)
    case ExpireOp(name) => Expire(s, name, env)
    case TimeoutsOp => DropTimedOut(s, env.now)
    case CancelOp(holder) => CancelWaits(s, holder)
    case RenewOp(name, holder, addSec) => Renew(s, name, holder, addSec, env.now)
    case ShortenOp(name, leaseSec) => Shorten(s, name, leaseSec, env.now)
    case AccelerateOp(name, enabled, cooldownSec) => SetAccelerated(s, name, enabled, cooldownSec)
    case IssueTokenOp(name, holder, leaseSec) => s.(fencing := AfterIssue(s.fencing, name, holder, leaseSec, env.now))
    case RevokeTokenOp(token) => s.(fencing := AfterRevoke(s.fencing, token))
  }

  datatype Event = Event(op: LockOp, env: Env)

  ghost function RunOf(s: State, run: seq<Event>): State
    decreases |run|
  {
    if run == [] then s else RunOf(Step(s, run[0].op, run[0].env), run[1..])
  }

  ghost predicate AllProper(run: seq<Event>) {
    forall e | e in run :: Proper(e.op)
  }

  // ---------------------------------------------------------------- the invariant over runs

  lemma FencingKeeps(s: State, f: Store)
    requires Inv(s) && StoreOk(f)
    requires forall p :: NextSequence(s.fencing, p) <= NextSequence(f, p)
    ensures Inv(s.(fencing := f))
  {
    var t := s.(fencing := f);
    forall n ensures LockOk(t, n) {
      assert LockOk(s, n);
    }
  }

  lemma FencingOpKeeps(s: State, op: TokenOp)
    requires Inv(s)
    ensures Inv(s.(fencing := TokenStep(s.fencing, op)))
  {
    hide Inv;
    InvStore(s);
    StepKeepsStore(s.fencing, op);
    FencingKeeps(s, TokenStep(s.fencing, op));
  }

  lemma InvStore(s: State)
    requires Inv(s)
    ensures StoreOk(s.fencing) && QueueOk(s)
  {
  }

  lemma StepKeepsInv(s: State, op: LockOp, env: Env)
    requires Inv(s) && Proper(op)
    ensures Inv(Step(s, op, env))
  {
    hide Inv, Acquire, BatchOf, Release, Expire;
    match op
    case AcquireOp(name, holder, leaseSec, reentrant) => AcquireKeeps(s, name, holder, leaseSec, reentrant, env);
    case BatchOp(names, holder, leaseSec, reentrant) => BatchKeeps(s, names, holder, leaseSec, reentrant, env);
    case ReleaseOp(name, holder) => ReleaseKeeps(s, name, holder, env);
    case ExpireOp(name) => ExpireKeeps(s, name, env);
    case TimeoutsOp => ShrinkKeeps(s, TimedOut(s.queue, env.now));
    case CancelOp(holder) => ShrinkKeeps(s, WaitsOf(s.queue, holder));
    case RenewOp(name, holder, addSec) =>
      if Renewable(s, name, holder, env.now) {
        var a := ActiveLeases(s.leases, name);
        var at := a[|a| - 1].expiresAt;
        NewExpiryKeeps(s, name, at + RenewSeconds(s, name, at, addSec, env.now) * SECOND);
      }
    case ShortenOp(name, leaseSec) =>
      var a := ActiveLeases(s.leases, name);
      if a != [] && leaseSec > 0 {
        var wanted := env.now + leaseSec * SECOND;
        NewExpiryKeeps(s, name, if wanted > a[|a| - 1].expiresAt then a[|a| - 1].expiresAt else wanted);
      }
    case AccelerateOp(name, enabled, cooldownSec) => SetAcceleratedKeeps(s, name, enabled, cooldownSec);
    case IssueTokenOp(name, holder, leaseSec) => FencingOpKeeps(s, IssueOp(name, holder, leaseSec, env.now));
    case RevokeTokenOp(token) => FencingOpKeeps(s, RevokeOp(token));
  }

  /** Every state that a run goes through from an orderly one is orderly. */
  lemma {:induction false} RunKeepsInv(s: State, run: seq<Event>)
    requires Inv(s) && AllProper(run)
    ensures Inv(RunOf(s, run))
    decreases |run|
  {
    if run != [] {
      assert run[0] in run;
      StepKeepsInv(s, run[0].op, run[0].env);
      RunKeepsInv(Step(s, run[0].op, run[0].env), run[1..]);
    }
  }

  /** Every reachable state satisfies the invariant. */
  lemma ReachableInv(fencing: Store, run: seq<Event>)
    requires StoreOk(fencing) && AllProper(run)
    ensures Inv(RunOf(Initial(fencing), run))
  {
    InitialOk(fencing);
    hide Inv;
    RunKeepsInv(Initial(fencing), run);
  }

  // ---------------------------------------------------------------- wait-for graph, step by step

  lemma ShrinkGraph(s: State, ids: set<nat>)
    ensures WaitGraph(s.(queue := Without(s.queue, ids))) <= WaitGraph(s)
  {
    WithoutMember(s.queue, ids);
  }

  /** Locks that nobody waits for do not show in the graph. */
  lemma UnwaitedLock(s: State, t: State, name: string)
    requires s.queue == t.queue
    requires forall n | n != name :: (n in s.locks <==> n in t.locks) && (n in s.locks ==> s.locks[n] == t.locks[n])
    requires forall r | r in s.queue :: r.lockName != name
    ensures WaitGraph(t) == WaitGraph(s)
  {
    forall r | r in s.queue ensures Waits(s, r) == Waits(t, r) {
      assert r.lockName != name;
    }
  }

  lemma EnqueueGraph(s: State, item: WaitItem)
    requires IsHeld(s, item.lockName) && s.locks[item.lockName].holder != "" && s.locks[item.lockName].holder != item.holder
    ensures WaitGraph(Enqueue(s, item)) == WaitGraph(s) + {(item.holder, s.locks[item.lockName].holder)}
  {
    var t := Enqueue(s, item);
    var row := item.(id := s.nextId);
    assert t.queue == s.queue + [row];
    forall e ensures e in WaitGraph(t) <==> e in WaitGraph(s) || e == (item.holder, s.locks[item.lockName].holder) {
      if e in WaitGraph(s) {
        var r :| r in s.queue && Waits(s, r) && e == (r.holder, s.locks[r.lockName].holder);
        assert r in t.queue && Waits(t, r);
      }
      if e == (item.holder, s.locks[item.lockName].holder) {
        assert row in t.queue && Waits(t, row);
      }
    }
  }

  lemma GoldGraph(s: State, name: string, holder: string)
    ensures WaitGraph(GoldFirst(s, name, holder)) <= WaitGraph(s)
  {
    var t := GoldFirst(s, name, holder);
    forall r | r in t.queue ensures exists r0 :: r0 in s.queue && r0.lockName == r.lockName && r0.holder == r.holder {
      var r0 := GoldRow(s, name, holder, r);
    }
  }

  /** Holders queued for a lock. */
  ghost function Waiters(s: State, name: string): set<string> {
    set r | r in s.queue && r.lockName == name :: r.holder
  }

  /** A grant retargets every remaining waiter of the lock to the grantee. */
  lemma HoldGraph(s: State, name: string, holder: string, reentrant: bool, leaseSec: int, now: int)
    requires !IsHeld(s, name) && holder != "" && holder !in Waiters(s, name)
    ensures WaitGraph(Hold(s, name, holder, reentrant, leaseSec, now))
            == AddInto(WaitGraph(s), Waiters(s, name), holder)
  {
    var t := Hold(s, name, holder, reentrant, leaseSec, now);
    forall r | r in s.queue && r.lockName != name ensures Waits(s, r) == Waits(t, r) {
    }
    forall e ensures e in WaitGraph(t) <==> e in AddInto(WaitGraph(s), Waiters(s, name), holder) {
      if e in WaitGraph(s) {
        var r :| r in s.queue && Waits(s, r) && e == (r.holder, s.locks[r.lockName].holder);
        assert Waits(t, r);
      }
      if e.1 == holder && e.0 in Waiters(s, name) {
        var r :| r in s.queue && r.lockName == name && r.holder == e.0;
        assert Waits(t, r);
      }
    }
  }

  /** Waits for a lock that is not held are no edges, so dropping them changes nothing. */
  lemma DropFreeWaits(s: State, name: string, ids: set<nat>)
    requires !IsHeld(s, name)
    requires forall r | r in s.queue && r.id in ids :: r.lockName == name
    ensures WaitGraph(s.(queue := Without(s.queue, ids))) == WaitGraph(s)
  {
    WithoutMember(s.queue, ids);
    var t := s.(queue := Without(s.queue, ids));
    forall e | e in WaitGraph(s) ensures e in WaitGraph(t) {
      var r :| r in s.queue && Waits(s, r) && e == (r.holder, s.locks[r.lockName].holder);
      assert r in t.queue && Waits(t, r);
    }
    ShrinkGraph(s, ids);
  }

  // ---------------------------------------------------------------- acyclicity

  /** A request for a held lock is refused as a deadlock exactly when its wait would close
      a cycle; queueing it keeps the graph acyclic, whatever else its holder waits for. */
  lemma DeadlockExact(s: State, name: string, holder: string, leaseSec: int, reentrant: bool, env: Env)
    requires Inv(s) && Acyclic(WaitGraph(s))
    requires IsHeld(s, name) && s.locks[name].holder != holder && leaseSec > 0
    requires env.admits(name, holder, leaseSec) && env.withinBudget(holder, name, leaseSec) && env.underLimit(holder)
    ensures AcquireOutcome(s, name, holder, leaseSec, reentrant, env) == Deadlock
            <==> Reaches(WaitGraph(s), s.locks[name].holder, holder)
    ensures Acyclic(WaitGraph(Acquire(s, name, holder, leaseSec, reentrant, env)))
  {
    HolderNamed(s, name);
    hide CycleReachable, Reaches, WaitGraph, Inv, Acyclic, QueueUp;
    NewEdgeCycle(WaitGraph(s), holder, s.locks[name].holder);
    if AcquireOutcome(s, name, holder, leaseSec, reentrant, env).Queued? {
      QueueUpAcyclic(s, name, holder, leaseSec, reentrant, env);
    }
  }

  lemma QueueUpAcyclic(s: State, name: string, holder: string, leaseSec: int, reentrant: bool, env: Env)
    requires IsHeld(s, name) && s.locks[name].holder != holder && s.locks[name].holder != ""
    requires Acyclic(WaitGraph(s)) && !SeesCycle(s, holder, s.locks[name].holder)
    ensures Acyclic(WaitGraph(QueueUp(s, name, holder, leaseSec, reentrant, env)))
  {
    hide WaitGraph, GoldFirst, Enqueue, Reaches, Acyclic, CycleReachable;
    var item := WaitItem(0, name, holder, reentrant, leaseSec, env.now, env.now + WAIT_TIMEOUT);
    EnqueueGraph(s, item);
    NewEdgeCycle(WaitGraph(s), holder, s.locks[name].holder);
    GoldGraph(Enqueue(s, item), name, holder);
    SubgraphAcyclic(WaitGraph(QueueUp(s, name, holder, leaseSec, reentrant, env)), WaitGraph(Enqueue(s, item)));
  }

  lemma HolderNamed(s: State, name: string)
    requires Inv(s) && IsHeld(s, name)
    ensures s.locks[name].holder != "" && s.locks[name].count >= 1
  {
    assert LockOk(s, name);
  }

  /** When the lock `name` is freed and its queue granted, the graph stays acyclic exactly
      if the grantee does not already wait, through other locks, for a waiter left behind. */
  lemma GrantAcyclicIff(s: State, name: string, env: Env)
    requires QueueOk(s) && !IsHeld(s, name) && Acyclic(WaitGraph(s))
    ensures var q := Rows(s.queue, name);
            var k := SkipCount(q, env);
            Acyclic(WaitGraph(GrantNext(s, name, env))) <==>
            (k < |q| ==> forall i | k < i < |q| :: !Reaches(WaitGraph(s), q[k].holder, q[i].holder))
  {
    hide WaitGraph, Reaches, Acyclic, Rows, Without, SkipCount, Skipped, AddInto;
    var q := Rows(s.queue, name);
    var k := SkipCount(q, env);
    var n := if k == |q| then k else k + 1;
    var ids := Ids(q[..n]);
    assert k == |q| ==> q[..n] == q;
    PrefixRows(s, name, n);
    DropFreeWaits(s, name, ids);
    var t := s.(queue := Without(s.queue, ids));
    if k < |q| {
      GranteeGone(s, name, k);
      RemainingWaiters(s, name, k + 1);
      HoldGraph(t, name, q[k].holder, q[k].reentrant, CappedLease(s, name, q[k].leaseSec), env.now);
      CycleThroughTarget(WaitGraph(t), Waiters(t, name), q[k].holder);
    }
  }

  lemma PrefixRows(s: State, name: string, n: nat)
    requires QueueOk(s) && n <= |Rows(s.queue, name)|
    ensures forall r | r in s.queue && r.id in Ids(Rows(s.queue, name)[..n]) :: r.lockName == name
  {
    var q := Rows(s.queue, name);
    RowsMember(s.queue, name);
    forall r | r in s.queue && r.id in Ids(q[..n]) ensures r.lockName == name {
      var r0 :| r0 in q[..n] && r0.id == r.id;
      assert r0 in q;
      IdUnique(s.queue, s.nextId, r, r0);
    }
  }

  lemma RemainingWaiters(s: State, name: string, n: nat)
    requires QueueOk(s) && n <= |Rows(s.queue, name)|
    ensures var q := Rows(s.queue, name);
            var t := s.(queue := Without(s.queue, Ids(q[..n])));
            forall w :: w in Waiters(t, name) <==> exists i :: n <= i < |q| && q[i].holder == w
  {
    hide Without, QueueOk, Waiters;
    var q := Rows(s.queue, name);
    var t := s.(queue := Without(s.queue, Ids(q[..n])));
    DropPrefix(s, name, n);
    WaitersAreRows(t, name, q[n..]);
    forall w ensures w in Waiters(t, name) <==> exists i :: n <= i < |q| && q[i].holder == w {
      if j :| 0 <= j < |q[n..]| && q[n..][j].holder == w {
        assert q[n + j].holder == w;
      }
      if i :| n <= i < |q| && q[i].holder == w {
        assert q[n..][i - n].holder == w;
      }
    }
  }

  lemma WaitersAreRows(s: State, name: string, q: seq<WaitItem>)
    requires q == Rows(s.queue, name)
    ensures forall w :: w in Waiters(s, name) <==> exists i :: 0 <= i < |q| && q[i].holder == w
  {
    RowsMember(s.queue, name);
    hide Rows;
    forall w | w in Waiters(s, name) ensures exists i :: 0 <= i < |q| && q[i].holder == w {
      var r :| r in s.queue && r.lockName == name && r.holder == w;
      assert r in q;
      var i :| 0 <= i < |q| && q[i] == r;
    }
    forall i | 0 <= i < |q| ensures q[i].holder in Waiters(s, name) {
      assert q[i] in q;
    }
  }

  /** No holder has two rows in the wait queue. */
  ghost predicate WaitsOnce(s: State) {
    forall a, b | a in s.queue && b in s.queue && a.holder == b.holder :: a == b
  }

  /** The operation does not queue a holder that already waits somewhere. */
  ghost predicate Disciplined(s: State, op: LockOp, env: Env) {
    op.AcquireOp? && AcquireOutcome(s, op.name, op.holder, op.leaseSec, op.reentrant, env).Queued?
    ==> forall r | r in s.queue :: r.holder != op.holder
  }

  ghost predicate DisciplinedRun(s: State, run: seq<Event>)
    decreases |run|
  {
    run == [] ||
    (Disciplined(s, run[0].op, run[0].env) && DisciplinedRun(Step(s, run[0].op, run[0].env), run[1..]))
  }

  /** Rows only leave. */
  ghost predicate QueueShrunk(s: State, t: State) {
    forall r | r in t.queue :: r in s.queue
  }

  lemma {:induction false} NoWayOut(g: Graph, a: string, b: string)
    requires forall n :: (a, n) !in g
    requires Reaches(g, a, b)
    ensures a == b
  {
    ReachSplit(g, a, b);
    if ReachesStrictly(g, a, b) {
      var next := FirstStep(g, a, b);
    }
  }

  /** With at most one wait per holder, a grantee waits for nobody, so a grant closes no cycle. */
  lemma GrantAcyclic(s: State, name: string, env: Env)
    requires QueueOk(s) && !IsHeld(s, name) && Acyclic(WaitGraph(s)) && WaitsOnce(s)
    ensures Acyclic(WaitGraph(GrantNext(s, name, env)))
  {
    var q := Rows(s.queue, name);
    var k := SkipCount(q, env);
    if k < |q| {
      forall i | k < i < |q| ensures !Reaches(WaitGraph(s), q[k].holder, q[i].holder) {
        GranteeAlone(s, name, k, i);
      }
    }
    hide WaitGraph, Acyclic, Reaches, GrantNext;
    GrantAcyclicIff(s, name, env);
  }

  lemma GranteeAlone(s: State, name: string, k: nat, i: nat)
    requires QueueOk(s) && !IsHeld(s, name) && WaitsOnce(s)
    requires k < i < |Rows(s.queue, name)|
    ensures !Reaches(WaitGraph(s), Rows(s.queue, name)[k].holder, Rows(s.queue, name)[i].holder)
  {
    var q := Rows(s.queue, name);
    QueueDistinct(s, name);
    RowsMember(s.queue, name);
    assert q[k] in q;
    assert q[k].lockName == name;
    var grantee := q[k];
    forall n ensures (grantee.holder, n) !in WaitGraph(s) {
      forall r | r in s.queue && Waits(s, r) ensures r.holder != grantee.holder {
        assert r != grantee;
      }
    }
    if Reaches(WaitGraph(s), q[k].holder, q[i].holder) {
      NoWayOut(WaitGraph(s), q[k].holder, q[i].holder);
      assert false;
    }
  }

  /** What runs keep: no cycle, and at most one wait per holder. */
  ghost predicate Safe(s: State) {
    Inv(s) && Acyclic(WaitGraph(s)) && WaitsOnce(s)
  }

  lemma FreedSafe(s: State, name: string, env: Env)
    requires Safe(s) && name in s.locks
    ensures Safe(GrantNext(Vacate(s, name), name, env))
  {
    var v := Vacate(s, name);
    VacateKeeps(s, name);
    SubgraphAcyclic(WaitGraph(v), WaitGraph(s));
    GrantKeeps(v, name, env);
    GrantAcyclic(v, name, env);
    GrantShrinks(v, name, env);
  }

  lemma GrantShrinks(s: State, name: string, env: Env)
    ensures QueueShrunk(s, GrantNext(s, name, env))
  {
    hide Without, SkipCount, Rows;
    var q := Rows(s.queue, name);
    var k := SkipCount(q, env);
    WithoutMember(s.queue, if k == |q| then Ids(q) else Ids(q[..k + 1]));
  }

  lemma CountSafe(s: State, name: string, count: int)
    requires Safe(s) && IsHeld(s, name)
    ensures var t := s.(locks := s.locks[name := s.locks[name].(count := count)]);
            Acyclic(WaitGraph(t)) && WaitsOnce(t)
  {
    var t := s.(locks := s.locks[name := s.locks[name].(count := count)]);
    forall r | r in s.queue ensures Waits(s, r) == Waits(t, r) {
    }
    assert WaitGraph(t) == WaitGraph(s);
  }

  lemma ReleaseSafe(s: State, name: string, holder: string, env: Env)
    requires Safe(s)
    ensures Safe(Release(s, name, holder, env))
  {
    ReleaseKeeps(s, name, holder, env);
    hide GrantNext, WaitGraph, Acyclic;
    match Releasing(s, name, holder)
    case CountedDown(n) => CountSafe(s, name, n);
    case Released => FreedSafe(s, name, env);
    case _ =>
  }

  lemma ShrinkSafe(s: State, ids: set<nat>)
    requires Safe(s)
    ensures Safe(s.(queue := Without(s.queue, ids)))
  {
    ShrinkKeeps(s, ids);
    ShrinkGraph(s, ids);
    WithoutMember(s.queue, ids);
    SubgraphAcyclic(WaitGraph(s.(queue := Without(s.queue, ids))), WaitGraph(s));
  }

  lemma TakeFreeSafe(s: State, name: string, holder: string, reentrant: bool, leaseSec: int, now: int)
    requires Safe(s) && !IsHeld(s, name) && name != "" && holder != "" && leaseSec > 0
    ensures Safe(Hold(s, name, holder, reentrant, leaseSec, now))
  {
    TakeFreeKeeps(s, name, holder, reentrant, leaseSec, now);
    FreeIsBare(s, name);
    UnwaitedLock(s, Hold(s, name, holder, reentrant, leaseSec, now), name);
  }

  lemma AcquireSafe(s: State, name: string, holder: string, leaseSec: int, reentrant: bool, env: Env)
    requires Safe(s) && name != "" && holder != ""
    requires Disciplined(s, AcquireOp(name, holder, leaseSec, reentrant), env)
    ensures Safe(Acquire(s, name, holder, leaseSec, reentrant, env))
  {
    AcquireKeeps(s, name, holder, leaseSec, reentrant, env);
    hide Inv, WaitGraph, Acyclic, SeesCycle, QueueUp, Hold, Rows, InQueue, LockOk;
    match AcquireOutcome(s, name, holder, leaseSec, reentrant, env)
    case Acquired =>
      if IsHeld(s, name) {
        CountSafe(s, name, s.locks[name].count + 1);
      } else {
        TakeFreeSafe(s, name, holder, reentrant, CappedLease(s, name, leaseSec), env.now);
      }
    case Queued(_) =>
      HolderNamed(s, name);
      QueueUpAcyclic(s, name, holder, leaseSec, reentrant, env);
      QueueUpOnce(s, name, holder, leaseSec, reentrant, env);
    case _ =>
  }

  lemma QueueUpOnce(s: State, name: string, holder: string, leaseSec: int, reentrant: bool, env: Env)
    requires WaitsOnce(s) && Inv(QueueUp(s, name, holder, leaseSec, reentrant, env))
    requires forall r | r in s.queue :: r.holder != holder
    ensures WaitsOnce(QueueUp(s, name, holder, leaseSec, reentrant, env))
  {
    hide Inv, WaitsOnce, Enqueue, GoldFirst;
    var item := WaitItem(0, name, holder, reentrant, leaseSec, env.now, env.now + WAIT_TIMEOUT);
    EnqueueOnce(s, item);
    if env.isGold(holder) {
      GoldOnce(Enqueue(s, item), name, holder);
    }
  }

  lemma EnqueueOnce(s: State, item: WaitItem)
    requires WaitsOnce(s)
    requires forall r | r in s.queue :: r.holder != item.holder
    ensures WaitsOnce(Enqueue(s, item))
  {
  }

  lemma GoldOnce(s: State, name: string, holder: string)
    requires WaitsOnce(s) && Inv(GoldFirst(s, name, holder))
    ensures WaitsOnce(GoldFirst(s, name, holder))
  {
    var t := GoldFirst(s, name, holder);
    hide GoldFirst, Rows, Without, LockOk;
    forall a, b | a in t.queue && b in t.queue && a.holder == b.holder ensures a == b {
      var a0 := GoldRow(s, name, holder, a);
      var b0 := GoldRow(s, name, holder, b);
      assert a0 == b0;
    }
  }

  lemma NoQueueSafe(s: State, name: string, holder: string, leaseSec: int, reentrant: bool, env: Env)
    requires Safe(s) && name != "" && holder != "" && leaseSec > 0
    ensures Safe(AcquireNoQueue(s, name, holder, leaseSec, reentrant, env))
  {
    NoQueueKeeps(s, name, holder, leaseSec, reentrant, env);
    hide Inv, WaitGraph, Acyclic, Hold;
    match NoQueue(s, name, holder, leaseSec, reentrant, env)
    case Taken => TakeFreeSafe(s, name, holder, reentrant, leaseSec, env.now);
    case CountedUp => CountSafe(s, name, s.locks[name].count + 1);
    case _ =>
  }

  lemma {:induction false} TakeEachSafe(s: State, names: seq<string>, holder: string, leaseSec: int, reentrant: bool, env: Env)
    requires Safe(s) && holder != "" && leaseSec > 0 && "" !in names
    ensures Safe(TakeEach(s, names, holder, leaseSec, reentrant, env).0)
    decreases |names|
  {
    hide Safe, AcquireNoQueue, NoQueue;
    if names != [] && !Fails(NoQueue(s, names[0], holder, leaseSec, reentrant, env)) {
      NoQueueSafe(s, names[0], holder, leaseSec, reentrant, env);
      TakeEachSafe(AcquireNoQueue(s, names[0], holder, leaseSec, reentrant, env),
                   names[1..], holder, leaseSec, reentrant, env);
    }
  }

  lemma {:induction false} ReleaseBackSafe(s: State, names: seq<string>, holder: string, env: Env)
    requires Safe(s)
    ensures Safe(ReleaseBack(s, names, holder, env))
    decreases |names|
  {
    hide Safe, Release;
    if names != [] {
      ReleaseSafe(s, names[|names| - 1], holder, env);
      ReleaseBackSafe(Release(s, names[|names| - 1], holder, env), names[..|names| - 1], holder, env);
    }
  }

  lemma BatchSafe(s: State, names: seq<string>, holder: string, leaseSec: int, reentrant: bool, env: Env)
    requires Safe(s) && holder != "" && leaseSec > 0 && "" !in names
    ensures Safe(BatchOf(s, names, holder, leaseSec, reentrant, env).0)
  {
    hide Safe, TakeEach, ReleaseBack, NoQueue;
    if FirstHeld(s, names) == |names| {
      TakeEachSafe(s, names, holder, leaseSec, reentrant, env);
      var (s', n) := TakeEach(s, names, holder, leaseSec, reentrant, env);
      if n < |names| {
        ReleaseBackSafe(s', names[..n], holder, env);
      }
    }
  }

  lemma SameQueueSafe(s: State, t: State)
    requires Safe(s) && Inv(t) && t.locks == s.locks && t.queue == s.queue
    ensures Safe(t)
  {
    forall r | r in s.queue ensures Waits(s, r) == Waits(t, r) {
    }
    assert WaitGraph(t) == WaitGraph(s);
  }

  lemma StepKeepsSafe(s: State, op: LockOp, env: Env)
    requires Safe(s) && Proper(op) && Disciplined(s, op, env)
    ensures Safe(Step(s, op, env))
  {
    hide Inv, Acquire, AcquireOutcome, BatchOf, Release, Expire, WaitGraph, Acyclic;
    StepKeepsInv(s, op, env);
    hide Safe;
    match op
    case AcquireOp(name, holder, leaseSec, reentrant) => AcquireSafe(s, name, holder, leaseSec, reentrant, env);
    case BatchOp(names, holder, leaseSec, reentrant) => BatchSafe(s, names, holder, leaseSec, reentrant, env);
    case ReleaseOp(name, holder) => ReleaseSafe(s, name, holder, env);
    case ExpireOp(name) => ExpireSafe(s, name, env);
    case TimeoutsOp => ShrinkSafe(s, TimedOut(s.queue, env.now));
    case CancelOp(holder) => ShrinkSafe(s, WaitsOf(s.queue, holder));
    case _ => SameQueueSafe(s, Step(s, op, env));
  }

  lemma ExpireSafe(s: State, name: string, env: Env)
    requires Safe(s)
    ensures Safe(Expire(s, name, env))
  {
    hide Safe, GrantNext;
    if IsHeld(s, name) {
      FreedSafe(s, name, env);
    }
  }

  /** If no holder queues while it is already queued, a run from a safe state keeps it safe. */
  lemma {:induction false} RunStaysAcyclic(s: State, run: seq<Event>)
    requires Safe(s) && AllProper(run) && DisciplinedRun(s, run)
    ensures Acyclic(WaitGraph(RunOf(s, run))) && WaitsOnce(RunOf(s, run)) && Inv(RunOf(s, run))
    decreases |run|
  {
    hide WaitGraph, Acyclic, Inv, Step;
    if run != [] {
      assert run[0] in run;
      StepKeepsSafe(s, run[0].op, run[0].env);
      RunStaysAcyclic(Step(s, run[0].op, run[0].env), run[1..]);
    }
  }

  lemma InitialSafe(fencing: Store)
    requires StoreOk(fencing)
    ensures Safe(Initial(fencing))
  {
    InitialOk(fencing);
    assert WaitGraph(Initial(fencing)) == {};
    EmptyAcyclic();
  }

  /** If no holder queues while it is already queued, the wait-for graph is acyclic in every
      reachable state, so no set of holders ever waits for each other. */
  lemma ReachableAcyclic(fencing: Store, run: seq<Event>)
    requires StoreOk(fencing) && AllProper(run) && DisciplinedRun(Initial(fencing), run)
    ensures Acyclic(WaitGraph(RunOf(Initial(fencing), run))) && WaitsOnce(RunOf(Initial(fencing), run))
  {
    InitialSafe(fencing);
    hide WaitGraph, Acyclic, Inv;
    RunStaysAcyclic(Initial(fencing), run);
  }
}
