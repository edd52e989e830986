/** What holds of locks, leases, timers, queues and fencing sequences in every reachable
    state of the lock manager, and the proof that each operation keeps it. */
module LockInvariants {
  import opened Graphs
  import opened Fencing
  import opened LockTables
  import opened LockSpec

  // ---------------------------------------------------------------- the invariant

  /** A held lock has a holder, a count, exactly one active lease (its holder's) and a timer set to
      the lease's end, and only other holders wait for it; any other lock is free, with nothing left behind. */
  ghost predicate LockOk(s: State, name: string) {
    if IsHeld(s, name) then
      var l := s.locks[name];
      && l.holder != "" && l.count >= 1 && (l.count > 1 ==> l.reentrant)
      && |ActiveLeases(s.leases, name)| == 1
      && ActiveLeases(s.leases, name)[0].holder == l.holder
      && name in s.timers && s.timers[name] == ActiveLeases(s.leases, name)[0].expiresAt
      && (forall r | r in s.queue && r.lockName == name :: r.holder != l.holder)
    else
      && (name in s.locks ==> s.locks[name].status == Free && s.locks[name].holder == "" && s.locks[name].count == 0)
      && Bare(s, name)
      && (forall r | r in s.queue :: r.lockName != name)
  }

  /** No active lease and no timer. */
  ghost predicate Bare(s: State, name: string) {
    ActiveLeases(s.leases, name) == [] && name !in s.timers
  }

  /** Nobody queues twice for one lock. */
  ghost predicate QueueOk(s: State) {
    && IdsOk(s.queue, s.nextId)
    && (forall r | r in s.queue :: r.lockName != "" && r.holder != "" && r.leaseSec > 0)
    && (forall a, b | a in s.queue && b in s.queue && a.lockName == b.lockName && a.holder == b.holder :: a == b)
  }

  /** Along the leases of a lock the fencing sequences strictly increase. */
  ghost predicate LeasesOk(leases: seq<Lease>, f: Store) {
    && StoreOk(f)
    && (forall l | l in leases :: l.token.path == l.lockName && l.token.sequence < NextSequence(f, l.lockName))
    && (forall i, j | 0 <= i < j < |leases| && leases[i].lockName == leases[j].lockName ::
          leases[i].token.sequence < leases[j].token.sequence)
  }

  ghost predicate Inv(s: State) {
    && QueueOk(s)
    && LeasesOk(s.leases, s.fencing)
    && (forall name :: LockOk(s, name))
  }

  /** Before anything is stored; tokens may have been issued already. */
  function Initial(fencing: Store): State {
    State(map[], [], [], 1, map[], map[], fencing)
  }

  lemma InitialOk(fencing: Store)
    requires StoreOk(fencing)
    ensures Inv(Initial(fencing))
  {
  }

  /** The state while `name` is between two holders. */
  ghost predicate InvBut(s: State, name: string) {
    && QueueOk(s)
    && LeasesOk(s.leases, s.fencing)
    && (forall n | n != name :: LockOk(s, n))
    && Bare(s, name)
    && (name in s.locks ==> s.locks[name].status == Free && s.locks[name].holder == "" && s.locks[name].count == 0)
  }

  /** Nothing about lock `n` differs between two states, except that waiters may have left. */
  ghost predicate SameLock(s: State, t: State, n: string) {
    && (n in s.locks <==> n in t.locks)
    && (n in s.locks ==> s.locks[n] == t.locks[n])
    && ActiveLeases(s.leases, n) == ActiveLeases(t.leases, n)
    && (n in s.timers <==> n in t.timers)
    && (n in s.timers ==> s.timers[n] == t.timers[n])
  }

  lemma SameLockKeepsOk(s: State, t: State, n: string)
    requires LockOk(s, n) && SameLock(s, t, n)
    requires forall r | r in t.queue && r.lockName == n :: r in s.queue
    ensures LockOk(t, n)
  {
  }

  // ---------------------------------------------------------------- building blocks

  lemma LeasesGrow(leases: seq<Lease>, f: Store, l: Lease, holder: string, leaseSec: int, now: int)
    requires LeasesOk(leases, f)
    requires Issuable(l.lockName, holder, leaseSec)
    requires l.token == Token(l.lockName, NextSequence(f, l.lockName))
    ensures LeasesOk(leases + [l], AfterIssue(f, l.lockName, holder, leaseSec, now))
  {
    StepKeepsStore(f, IssueOp(l.lockName, holder, leaseSec, now));
    var all := leases + [l];
    forall i, j | 0 <= i < j < |all| && all[i].lockName == all[j].lockName
      ensures all[i].token.sequence < all[j].token.sequence
    {
      assert all[i] in leases;
    }
  }

  lemma HoldOthers(s: State, name: string, holder: string, reentrant: bool, leaseSec: int, now: int, n: string)
    requires n != name
    ensures SameLock(s, Hold(s, name, holder, reentrant, leaseSec, now), n)
  {
    var t := Hold(s, name, holder, reentrant, leaseSec, now);
    var l := t.leases[|s.leases|];
    assert t.leases == s.leases + [l];
    ActiveAppend(s.leases, [l], n);
  }

  /** What taking a lock does to that lock. */
  lemma HoldOwn(s: State, name: string, holder: string, reentrant: bool, leaseSec: int, now: int)
    requires Bare(s, name)
    ensures var t := Hold(s, name, holder, reentrant, leaseSec, now);
            && ActiveLeases(t.leases, name) == [t.leases[|s.leases|]]
            && t.locks[name] == Lock(Held, holder, reentrant, 1)
            && t.leases[|s.leases|].holder == holder
            && name in t.timers && t.timers[name] == t.leases[|s.leases|].expiresAt
  {
    var t := Hold(s, name, holder, reentrant, leaseSec, now);
    var l := t.leases[|s.leases|];
    ActiveAppend(s.leases, [l], name);
  }

  lemma HoldKeeps(s: State, name: string, holder: string, reentrant: bool, leaseSec: int, now: int)
    requires InvBut(s, name)
    requires name != "" && holder != "" && leaseSec > 0
    requires forall r | r in s.queue && r.lockName == name :: r.holder != holder
    ensures Inv(Hold(s, name, holder, reentrant, leaseSec, now))
  {
    var t := Hold(s, name, holder, reentrant, leaseSec, now);
    LeasesGrow(s.leases, s.fencing, t.leases[|s.leases|], holder, leaseSec, now);
    HoldOwn(s, name, holder, reentrant, leaseSec, now);
    forall n ensures LockOk(t, n) {
      if n != name {
        HoldOthers(s, name, holder, reentrant, leaseSec, now, n);
        SameLockKeepsOk(s, t, n);
      }
    }
  }

  lemma VacateOthers(s: State, name: string, n: string)
    requires name in s.locks && n != name
    ensures SameLock(s, Vacate(s, name), n)
  {
    ActiveAfterDeactivate(s.leases, name, n);
  }

  lemma VacateKeeps(s: State, name: string)
    requires Inv(s) && name in s.locks
    ensures InvBut(Vacate(s, name), name)
  {
    var t := Vacate(s, name);
    ActiveAfterDeactivate(s.leases, name, name);
    forall l | l in t.leases
      ensures l.token.path == l.lockName && l.token.sequence < NextSequence(t.fencing, l.lockName)
    {
      var i :| 0 <= i < |t.leases| && t.leases[i] == l;
      assert s.leases[i] in s.leases;
    }
    forall n | n != name ensures LockOk(t, n) {
      assert LockOk(s, n);
      VacateOthers(s, name, n);
      SameLockKeepsOk(s, t, n);
    }
  }

  /** Deleting rows keeps the queue in order. */
  lemma QueueShrinks(s: State, ids: set<nat>)
    requires QueueOk(s)
    ensures QueueOk(s.(queue := Without(s.queue, ids)))
    ensures forall r | r in Without(s.queue, ids) :: r in s.queue
  {
    WithoutMember(s.queue, ids);
    IdsOkWithout(s.queue, s.nextId, ids);
  }

  lemma ShrinkKeeps(s: State, ids: set<nat>)
    requires Inv(s)
    ensures Inv(s.(queue := Without(s.queue, ids)))
  {
    QueueShrinks(s, ids);
    var t := s.(queue := Without(s.queue, ids));
    forall n ensures LockOk(t, n) {
      assert LockOk(s, n);
      SameLockKeepsOk(s, t, n);
    }
  }

  lemma ShrinkKeepsBut(s: State, ids: set<nat>, name: string)
    requires InvBut(s, name)
    ensures InvBut(s.(queue := Without(s.queue, ids)), name)
  {
    QueueShrinks(s, ids);
    var t := s.(queue := Without(s.queue, ids));
    forall n | n != name ensures LockOk(t, n) {
      SameLockKeepsOk(s, t, n);
    }
  }

  /** The rows of a lock that remain once the first `k` are deleted. */
  lemma DropPrefix(s: State, name: string, k: nat)
    requires QueueOk(s) && k <= |Rows(s.queue, name)|
    ensures var rest := Without(s.queue, Ids(Rows(s.queue, name)[..k]));
            && Rows(rest, name) == Rows(s.queue, name)[k..]
            && (forall n | n != name :: Rows(rest, n) == Rows(s.queue, n))
  {
    var q := Rows(s.queue, name);
    IdsOkRows(s.queue, s.nextId, name);
    RowsWithout(s.queue, Ids(q[..k]), name);
    WithoutPrefix(q, s.nextId, k);
    RowsMember(s.queue, name);
    forall n | n != name ensures Rows(Without(s.queue, Ids(q[..k])), n) == Rows(s.queue, n) {
      WithoutOther(s.queue, s.nextId, q[..k], name, n);
    }
  }

  lemma GrantKeeps(s: State, name: string, env: Env)
    requires InvBut(s, name) && name in s.locks
    ensures Inv(GrantNext(s, name, env))
  {
    if SkipCount(Rows(s.queue, name), env) == |Rows(s.queue, name)| {
      NobodyGranted(s, name);
    } else {
      SomebodyGranted(s, name, env);
    }
  }

  lemma NobodyGranted(s: State, name: string)
    requires InvBut(s, name) && name in s.locks
    ensures Inv(s.(queue := Without(s.queue, Ids(Rows(s.queue, name)))))
  {
    var q := Rows(s.queue, name);
    var t := s.(queue := Without(s.queue, Ids(q)));
    ShrinkKeepsBut(s, Ids(q), name);
    RowsMember(s.queue, name);
    WithoutMember(s.queue, Ids(q));
    assert LockOk(t, name);
  }

  lemma SomebodyGranted(s: State, name: string, env: Env)
    requires InvBut(s, name) && name in s.locks
    requires SkipCount(Rows(s.queue, name), env) < |Rows(s.queue, name)|
    ensures Inv(GrantNext(s, name, env))
  {
    hide LockOk, Inv, Bare, LeasesOk, QueueOk, Hold, Rows, Without, Ids;
    var q := Rows(s.queue, name);
    var k := SkipCount(q, env);
    ShrinkKeepsBut(s, Ids(q[..k + 1]), name);
    GranteeGone(s, name, k);
    HoldKeeps(s.(queue := Without(s.queue, Ids(q[..k + 1]))), name, q[k].holder, q[k].reentrant,
              CappedLease(s, name, q[k].leaseSec), env.now);
  }

  /** The grantee has left the queue of the lock and was a proper entry of it. */
  lemma GranteeGone(s: State, name: string, k: nat)
    requires QueueOk(s) && k < |Rows(s.queue, name)|
    ensures var q := Rows(s.queue, name);
            && q[k] in s.queue && q[k].lockName == name && q[k].holder != "" && q[k].leaseSec > 0 && name != ""
            && forall r | r in Without(s.queue, Ids(q[..k + 1])) && r.lockName == name :: r.holder != q[k].holder
  {
    var q := Rows(s.queue, name);
    RowsMember(s.queue, name);
    assert q[k] in q;
    WithoutMember(s.queue, Ids(q[..k + 1]));
    assert q[k] in q[..k + 1];
    assert q[k].id in Ids(q[..k + 1]);
  }

  // ---------------------------------------------------------------- operations

  lemma ReleaseKeeps(s: State, name: string, holder: string, env: Env)
    requires Inv(s)
    ensures Inv(Release(s, name, holder, env))
  {
    assert LockOk(s, name);
    match Releasing(s, name, holder)
    case CountedDown(n) => CountKeeps(s, name, n);
    case Released =>
      VacateKeeps(s, name);
      GrantKeeps(Vacate(s, name), name, env);
    case _ =>
  }

  lemma CountKeeps(s: State, name: string, count: int)
    requires Inv(s) && IsHeld(s, name) && count >= 1 && s.locks[name].reentrant
    ensures Inv(s.(locks := s.locks[name := s.locks[name].(count := count)]))
  {
    var t := s.(locks := s.locks[name := s.locks[name].(count := count)]);
    assert LockOk(s, name);
    forall n ensures LockOk(t, n) {
      assert LockOk(s, n);
      if n != name {
        SameLockKeepsOk(s, t, n);
      }
    }
  }

  lemma ExpireKeeps(s: State, name: string, env: Env)
    requires Inv(s)
    ensures Inv(Expire(s, name, env))
  {
    if IsHeld(s, name) {
      VacateKeeps(s, name);
      GrantKeeps(Vacate(s, name), name, env);
    }
  }

  lemma FreeIsBare(s: State, name: string)
    requires Inv(s) && !IsHeld(s, name)
    ensures InvBut(s, name)
    ensures Rows(s.queue, name) == []
    ensures forall r | r in s.queue :: r.lockName != name
  {
    assert LockOk(s, name);
    RowsNone(s.queue, name);
  }

  lemma TakeFreeKeeps(s: State, name: string, holder: string, reentrant: bool, leaseSec: int, now: int)
    requires Inv(s) && !IsHeld(s, name)
    requires name != "" && holder != "" && leaseSec > 0
    ensures Inv(Hold(s, name, holder, reentrant, leaseSec, now))
  {
    FreeIsBare(s, name);
    HoldKeeps(s, name, holder, reentrant, leaseSec, now);
  }

  lemma EnqueueKeeps(s: State, item: WaitItem)
    requires Inv(s) && IsHeld(s, item.lockName)
    requires item.lockName != "" && item.holder != "" && item.leaseSec > 0
    requires s.locks[item.lockName].holder != item.holder
    requires !InQueue(Rows(s.queue, item.lockName), item.holder)
    ensures Inv(Enqueue(s, item))
  {
    var t := Enqueue(s, item);
    var new_ := item.(id := s.nextId);
    RowsMember(s.queue, item.lockName);
    forall r | r in s.queue && r.lockName == item.lockName ensures r.holder != item.holder {
      assert r in Rows(s.queue, item.lockName);
    }
    forall n ensures LockOk(t, n) {
      assert LockOk(s, n);
      if n != item.lockName {
        SameLockKeepsOk(s, t, n);
      }
    }
  }

  ghost predicate HoldersDistinct(q: seq<WaitItem>) {
    forall i, j | 0 <= i < j < |q| :: q[i].holder != q[j].holder
  }

  lemma QueueDistinct(s: State, name: string)
    requires QueueOk(s)
    ensures HoldersDistinct(Rows(s.queue, name))
  {
    var q := Rows(s.queue, name);
    RowsMember(s.queue, name);
    IdsOkRows(s.queue, s.nextId, name);
    forall i, j | 0 <= i < j < |q| ensures q[i].holder != q[j].holder {
      assert q[i] in q && q[j] in q && q[i].id < q[j].id;
    }
  }

  lemma {:induction false} PartsDistinct(q: seq<WaitItem>, holder: string)
    requires HoldersDistinct(q)
    ensures HoldersDistinct(OfHolder(q, holder)) && HoldersDistinct(NotOfHolder(q, holder))
  {
    if q != [] {
      PartsDistinct(q[1..], holder);
      HolderSplitMembers(q[1..], holder);
      forall r: WaitItem | r in q[1..] ensures r.holder != q[0].holder {
      }
    }
  }

  lemma SplitDistinct(q: seq<WaitItem>, holder: string)
    requires HoldersDistinct(q)
    ensures HoldersDistinct(OfHolder(q, holder) + NotOfHolder(q, holder))
  {
    PartsDistinct(q, holder);
    HolderSplitMembers(q, holder);
    var gold, other := OfHolder(q, holder), NotOfHolder(q, holder);
    assert forall r: WaitItem | r in gold :: r.holder == holder;
    assert forall r: WaitItem | r in other :: r.holder != holder;
  }

  /** Rows of one lock, inserted again at the end of a table that has none of them. */
  lemma ReinsertedOk(s: State, kept: seq<WaitItem>, both: seq<WaitItem>, name: string)
    requires QueueOk(s.(queue := kept)) && HoldersDistinct(both)
    requires forall r | r in kept :: r.lockName != name
    requires forall r | r in both :: r.lockName == name && name != "" && r.holder != "" && r.leaseSec > 0
    ensures QueueOk(s.(queue := kept + Renumber(both, s.nextId), nextId := s.nextId + |both|))
  {
    IdsOkAppend(kept, both, s.nextId);
    RenumberedRows(both, s.nextId, name);
  }

  lemma RenumberedRows(both: seq<WaitItem>, from: nat, name: string)
    requires HoldersDistinct(both)
    requires forall r | r in both :: r.lockName == name && r.holder != "" && r.leaseSec > 0
    ensures forall r | r in Renumber(both, from) :: r.lockName == name && r.holder != "" && r.leaseSec > 0
    ensures forall a, b | a in Renumber(both, from) && b in Renumber(both, from) && a.holder == b.holder :: a == b
  {
    var rows := Renumber(both, from);
    forall r | r in rows ensures r.lockName == name && r.holder != "" && r.leaseSec > 0 {
      var i :| 0 <= i < |rows| && rows[i] == r;
      assert both[i] in both;
    }
    forall a, b | a in rows && b in rows && a.holder == b.holder ensures a == b {
      var i :| 0 <= i < |rows| && rows[i] == a;
      var j :| 0 <= j < |rows| && rows[j] == b;
      assert both[i].holder == both[j].holder;
    }
  }

  lemma GoldQueueOk(s: State, name: string, holder: string)
    requires QueueOk(s)
    ensures QueueOk(GoldFirst(s, name, holder))
  {
    hide Rows, Without, OfHolder, NotOfHolder;
    var q := Rows(s.queue, name);
    var both := OfHolder(q, holder) + NotOfHolder(q, holder);
    HolderSplitMembers(q, holder);
    RowsMember(s.queue, name);
    QueueShrinks(s, Ids(q));
    WithoutMember(s.queue, Ids(q));
    QueueDistinct(s, name);
    SplitDistinct(q, holder);
    forall r | r in both ensures r in s.queue && r.lockName == name {
      assert r in q;
    }
    ReinsertedOk(s, Without(s.queue, Ids(q)), both, name);
  }

  /** Each row of the reordered table is a row of the old one up to its id. */
  lemma GoldRow(s: State, name: string, holder: string, r: WaitItem) returns (r0: WaitItem)
    requires r in GoldFirst(s, name, holder).queue
    ensures r0 in s.queue && r0.lockName == r.lockName && r0.holder == r.holder
  {
    hide Rows, Without, OfHolder, NotOfHolder, Ids;
    var q := Rows(s.queue, name);
    var both := OfHolder(q, holder) + NotOfHolder(q, holder);
    HolderSplitMembers(q, holder);
    RowsMember(s.queue, name);
    WithoutMember(s.queue, Ids(q));
    if r in s.queue {
      r0 := r;
    } else {
      var i :| 0 <= i < |both| && Renumber(both, s.nextId)[i] == r;
      r0 := both[i];
      assert r0 in both;
    }
  }

  lemma GoldKeeps(s: State, name: string, holder: string)
    requires Inv(s)
    ensures Inv(GoldFirst(s, name, holder))
  {
    GoldQueueOk(s, name, holder);
    var t := GoldFirst(s, name, holder);
    forall n ensures LockOk(t, n) {
      assert LockOk(s, n);
      forall r | r in t.queue && r.lockName == n
        ensures IsHeld(t, n) && r.holder != t.locks[n].holder
      {
        var r0 := GoldRow(s, name, holder, r);
      }
    }
  }

  lemma QueueUpKeeps(s: State, name: string, holder: string, leaseSec: int, reentrant: bool, env: Env)
    requires Inv(s) && IsHeld(s, name) && s.locks[name].holder != holder
    requires name != "" && holder != "" && leaseSec > 0
    requires !InQueue(Rows(s.queue, name), holder)
    ensures Inv(QueueUp(s, name, holder, leaseSec, reentrant, env))
  {
    hide Inv, Rows, InQueue, IsHeld, GoldFirst, Enqueue;
    var item := WaitItem(0, name, holder, reentrant, leaseSec, env.now, env.now + WAIT_TIMEOUT);
    var s' := Enqueue(s, item);
    var t := QueueUp(s, name, holder, leaseSec, reentrant, env);
    assert Inv(s') by {
      EnqueueKeeps(s, item);
    }
    if env.isGold(holder) {
      assert t == GoldFirst(s', name, holder);
      assert Inv(t) by {
        GoldKeeps(s', name, holder);
      }
    } else {
      assert t == s';
    }
  }

  lemma AcquiredKeeps(s: State, name: string, holder: string, leaseSec: int, reentrant: bool, env: Env)
    requires Inv(s) && name != "" && holder != ""
    requires AcquireOutcome(s, name, holder, leaseSec, reentrant, env) == Acquired
    ensures Inv(Acquire(s, name, holder, leaseSec, reentrant, env))
  {
    if IsHeld(s, name) {
      assert LockOk(s, name);
      CountKeeps(s, name, s.locks[name].count + 1);
    } else {
      TakeFreeKeeps(s, name, holder, reentrant, CappedLease(s, name, leaseSec), env.now);
    }
  }

  lemma QueuedKeeps(s: State, name: string, holder: string, leaseSec: int, reentrant: bool, env: Env)
    requires Inv(s) && name != "" && holder != ""
    requires AcquireOutcome(s, name, holder, leaseSec, reentrant, env).Queued?
    ensures Inv(Acquire(s, name, holder, leaseSec, reentrant, env))
  {
    QueueUpKeeps(s, name, holder, leaseSec, reentrant, env);
  }

  lemma AcquireKeeps(s: State, name: string, holder: string, leaseSec: int, reentrant: bool, env: Env)
    requires Inv(s) && name != "" && holder != ""
    ensures Inv(Acquire(s, name, holder, leaseSec, reentrant, env))
  {
    match AcquireOutcome(s, name, holder, leaseSec, reentrant, env)
    case Acquired => AcquiredKeeps(s, name, holder, leaseSec, reentrant, env);
    case Queued(_) => QueuedKeeps(s, name, holder, leaseSec, reentrant, env);
    case _ =>
  }

  lemma NewExpiryKeeps(s: State, name: string, expiry: int)
    requires Inv(s) && ActiveLeases(s.leases, name) != []
    ensures Inv(s.(leases := SetExpiry(s.leases, name, expiry), timers := s.timers[name := expiry]))
  {
    var t := s.(leases := SetExpiry(s.leases, name, expiry), timers := s.timers[name := expiry]);
    assert LockOk(s, name);
    NewExpiryLeases(s, name, expiry);
    ActiveAfterSetExpiry(s.leases, name, expiry, name);
    forall n | n != name ensures LockOk(t, n) {
      assert LockOk(s, n);
      ActiveAfterSetExpiry(s.leases, name, expiry, n);
      SameLockKeepsOk(s, t, n);
    }
  }

  lemma NewExpiryLeases(s: State, name: string, expiry: int)
    requires LeasesOk(s.leases, s.fencing)
    ensures LeasesOk(SetExpiry(s.leases, name, expiry), s.fencing)
  {
    var leases := SetExpiry(s.leases, name, expiry);
    forall l | l in leases
      ensures l.token.path == l.lockName && l.token.sequence < NextSequence(s.fencing, l.lockName)
    {
      var i :| 0 <= i < |leases| && leases[i] == l;
      assert s.leases[i] in s.leases;
    }
  }

  lemma SetAcceleratedKeeps(s: State, name: string, enabled: bool, cooldownSec: int)
    requires Inv(s)
    ensures Inv(SetAccelerated(s, name, enabled, cooldownSec))
  {
    var t := SetAccelerated(s, name, enabled, cooldownSec);
    forall n ensures LockOk(t, n) {
      assert LockOk(s, n);
    }
  }

  lemma NoQueueKeeps(s: State, name: string, holder: string, leaseSec: int, reentrant: bool, env: Env)
    requires Inv(s) && name != "" && holder != "" && leaseSec > 0
    ensures Inv(AcquireNoQueue(s, name, holder, leaseSec, reentrant, env))
  {
    match NoQueue(s, name, holder, leaseSec, reentrant, env)
    case Taken => TakeFreeKeeps(s, name, holder, reentrant, leaseSec, env.now);
    case CountedUp =>
      assert LockOk(s, name);
      CountKeeps(s, name, s.locks[name].count + 1);
    case _ =>
  }

  lemma {:induction false} TakeEachKeeps(s: State, names: seq<string>, holder: string, leaseSec: int, reentrant: bool, env: Env)
    requires Inv(s) && holder != "" && leaseSec > 0 && "" !in names
    ensures Inv(TakeEach(s, names, holder, leaseSec, reentrant, env).0)
    ensures TakeEach(s, names, holder, leaseSec, reentrant, env).1 <= |names|
    decreases |names|
  {
    if names != [] && !Fails(NoQueue(s, names[0], holder, leaseSec, reentrant, env)) {
      NoQueueKeeps(s, names[0], holder, leaseSec, reentrant, env);
      TakeEachKeeps(AcquireNoQueue(s, names[0], holder, leaseSec, reentrant, env),
                    names[1..], holder, leaseSec, reentrant, env);
    }
  }

  lemma {:induction false} ReleaseBackKeeps(s: State, names: seq<string>, holder: string, env: Env)
    requires Inv(s)
    ensures Inv(ReleaseBack(s, names, holder, env))
    decreases |names|
  {
    if names != [] {
      ReleaseKeeps(s, names[|names| - 1], holder, env);
      ReleaseBackKeeps(Release(s, names[|names| - 1], holder, env), names[..|names| - 1], holder, env);
    }
  }

  lemma BatchKeeps(s: State, names: seq<string>, holder: string, leaseSec: int, reentrant: bool, env: Env)
    requires Inv(s) && holder != "" && leaseSec > 0 && "" !in names
    ensures Inv(BatchOf(s, names, holder, leaseSec, reentrant, env).0)
  {
    if FirstHeld(s, names) == |names| {
      TakeEachKeeps(s, names, holder, leaseSec, reentrant, env);
      var (s', n) := TakeEach(s, names, holder, leaseSec, reentrant, env);
      ReleaseBackKeeps(s', names[..n], holder, env);
    }
  }
}
