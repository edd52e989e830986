/** The lock manager of internal/lock/manager.go: one method per locked operation, each
    proved to have the effect that LockSpec gives it. */
module LockManager {
  import opened Clock
  import opened Graphs
  import opened DeadlockSearch
  import opened Fencing
  import opened LockTables
  import opened LockSpec
  import opened LockInvariants
  import Names

  datatype WaitEdge = WaitEdge(waiter: string, lockName: string, holder: string)

  class Manager {
    var locks: map<string, Lock>
    var leases: seq<Lease>
    var queue: seq<WaitItem>
    var nextId: nat
    var timers: map<string, int>
    var accelerated: map<string, int>
    const issuer: Fencing.Manager

    constructor (issuer: Fencing.Manager)
      requires StoreOk(issuer.Contents())
      ensures this.issuer == issuer && View() == Initial(issuer.Contents()) && Inv(View())
    {
      this.issuer := issuer;
      locks, leases, queue, nextId := map[], [], [], 1;
      timers, accelerated := map[], map[];
      new;
      InitialOk(issuer.Contents());
    }

    ghost function View(): State
      reads this, issuer
    {
      State(locks, leases, queue, nextId, timers, accelerated, issuer.Contents())
    }

    // -------------------------------------------------------------- granting

    /** The steps every grant ends with: lock row, token, lease row, timer. */
    method HoldLock(name: string, holder: string, reentrant: bool, leaseSec: int, now: int)
      requires Issuable(name, holder, leaseSec)
      modifies this, issuer
      ensures View() == Hold(old(View()), name, holder, reentrant, leaseSec, now)
    {
      locks := locks[name := Lock(Held, holder, reentrant, 1)];
      var issued := issuer.Issue(name, holder, leaseSec, now);
      leases := leases + [Lease(name, holder, leaseSec, now, now + leaseSec * SECOND, true, issued.token)];
      timers := timers[name := now + leaseSec * SECOND];
    }

    method VacateLock(name: string)
      requires name in locks
      modifies this
      ensures View() == Vacate(old(View()), name)
    {
      timers := timers - {name};
      leases := Deactivate(leases, name);
      locks := locks[name := Lock(Free, "", locks[name].reentrant, 0)];
    }

    method TryGrantNext(name: string, env: Env) returns (granted: bool)
      requires name in locks && QueueOk(View())
      modifies this, issuer
      ensures View() == GrantNext(old(View()), name, env)
      ensures granted <==> SkipCount(Rows(old(queue), name), env) < |Rows(old(queue), name)|
      decreases |Rows(queue, name)|
    {
      hide GrantNext, SkipCount, Rows, Without, QueueOk, Hold;
      ghost var s := View();
      var rows := Rows(queue, name);
      GrantCases(s, name, env);
      if rows == [] {
        return false;
      }
      var item := rows[0];
      RowOfLock(s, name);
      DequeueFirst(s, name);
      queue := Without(queue, {item.id});
      if item.timeoutAt < env.now || !env.withinBudget(item.holder, name, item.leaseSec) {
        granted := TryGrantNext(name, env);
        return;
      }
      var leaseSec := item.leaseSec;
      if name in accelerated && accelerated[name] > 0 && leaseSec > accelerated[name] {
        leaseSec := accelerated[name];
      }
      HoldLock(name, item.holder, item.reentrant, leaseSec, env.now);
      granted := true;
    }

    // -------------------------------------------------------------- release and expiry

    method ReleaseLock(name: string, holder: string, env: Env) returns (r: ReleaseOutcome)
      requires QueueOk(View())
      modifies this, issuer
      ensures View() == Release(old(View()), name, holder, env)
      ensures r == Releasing(old(View()), name, holder)
      ensures QueueOk(View())
    {
      hide GrantNext, SkipCount, Rows, Without, QueueOk, Hold, Deactivate;
      ReleaseQueueOk(View(), name, holder, env);
      if name !in locks {
        return NoSuchLock;
      }
      var lock := locks[name];
      if lock.status != Held {
        return NotHeld;
      }
      if lock.holder != holder {
        return NotHolder;
      }
      if lock.reentrant && lock.count > 1 {
        locks := locks[name := lock.(count := lock.count - 1)];
        return CountedDown(lock.count - 1);
      }
      VacateQueueOk(View(), name);
      VacateLock(name);
      var _ := TryGrantNext(name, env);
      r := Released;
    }

    /** A lease timer fires. Nothing is checked again, so a late timer may hit a newer lease. */
    method ExpireLock(name: string, env: Env)
      requires QueueOk(View())
      modifies this, issuer
      ensures View() == Expire(old(View()), name, env)
    {
      hide GrantNext, SkipCount, Rows, Without, QueueOk, Hold, Deactivate;
      if name !in locks || locks[name].status != Held {
        return;
      }
      ghost var s := View();
      var lock := locks[name];
      timers := timers - {name};
      leases := Deactivate(leases, name);
      locks := locks[name := lock.(status := Expired, holder := "", count := 0)];
      locks := locks[name := lock.(status := Free, holder := "", count := 0)];
      assert View() == Vacate(s, name);
      VacateQueueOk(s, name);
      var _ := TryGrantNext(name, env);
    }

    // -------------------------------------------------------------- waiting

    method CheckWaitQueueTimeouts(now: int)
      modifies this`queue
      ensures View() == DropTimedOut(old(View()), now)
    {
      var items := queue;
      DropNone(items, now, "");
      for i := 0 to |items|
        invariant queue == Without(items, TimedOut(items[..i], now))
      {
        TimedOutNext(items, i, now);
        if items[i].timeoutAt < now {
          queue := Without(queue, {items[i].id});
        }
      }
      assert items[..|items|] == items;
    }

    method CancelWaitForHolder(holder: string) returns (count: nat)
      modifies this`queue
      ensures View() == LockSpec.CancelWaits(old(View()), holder)
      ensures count == |OfHolder(old(queue), holder)|
    {
      var items := queue;
      DropNone(items, 0, holder);
      count := 0;
      for i := 0 to |items|
        invariant queue == Without(items, WaitsOf(items[..i], holder))
        invariant count == |OfHolder(items[..i], holder)|
      {
        WaitsOfNext(items, i, holder);
        if items[i].holder == holder {
          queue := Without(queue, {items[i].id});
          count := count + 1;
        }
      }
      assert items[..|items|] == items;
    }

    method ReorderWaitQueueForGold(name: string, goldHolder: string)
      modifies this`queue, this`nextId
      ensures View() == GoldFirst(old(View()), name, goldHolder)
    {
      hide Rows, Without, OfHolder, NotOfHolder, Ids, Renumber;
      var items := Rows(queue, name);
      SplitSize(items, goldHolder);
      if |items| == 0 {
        return;
      }
      var goldItems, otherItems := SplitByHolder(items, goldHolder);
      if |goldItems| == 0 || |otherItems| == 0 {
        return;
      }
      queue := Without(queue, Ids(items));
      InsertAll(goldItems);
      InsertAll(otherItems);
    }

    /** The loop that sorts the rows of a lock into the holder's and the others. */
    static method SplitByHolder(items: seq<WaitItem>, holder: string)
      returns (goldItems: seq<WaitItem>, otherItems: seq<WaitItem>)
      ensures goldItems == OfHolder(items, holder) && otherItems == NotOfHolder(items, holder)
    {
      goldItems, otherItems := [], [];
      for i := 0 to |items|
        invariant goldItems == OfHolder(items[..i], holder)
        invariant otherItems == NotOfHolder(items[..i], holder)
      {
        OfHolderAppend(items[..i], items[i], holder);
        if items[i].holder == holder {
          goldItems := goldItems + [items[i]];
        } else {
          otherItems := otherItems + [items[i]];
        }
        assert items[..i + 1] == items[..i] + [items[i]];
      }
      assert items[..|items|] == items;
    }

    method InsertAll(items: seq<WaitItem>)
      modifies this`queue, this`nextId
      ensures queue == old(queue) + Renumber(items, old(nextId))
      ensures nextId == old(nextId) + |items|
    {
      for i := 0 to |items|
        invariant nextId == old(nextId) + i
        invariant queue == old(queue) + Renumber(items[..i], old(nextId))
      {
        queue := queue + [items[i].(id := nextId)];
        nextId := nextId + 1;
        assert Renumber(items[..i + 1], old(nextId))
            == Renumber(items[..i], old(nextId)) + [items[i].(id := old(nextId) + i)];
      }
      assert items[..|items|] == items;
    }

    // -------------------------------------------------------------- deadlock detection

    method BuildWaitGraph() returns (adj: Adjacency)
      ensures Edges(adj) == WaitGraph(View())
      ensures LabelsOk(View(), adj)
    {
      hide Edges, LabelsOk;
      ghost var s := View();
      EmptyGraph(s);
      adj := map[];
      for i := 0 to |queue|
        invariant Edges(adj) == EdgesOf(s, queue[..i])
        invariant LabelsOk(s, adj)
      {
        var item := queue[i];
        assert queue[..i + 1] == queue[..i] + [item];
        if item.lockName in locks && locks[item.lockName].status == Held
           && locks[item.lockName].holder != "" && locks[item.lockName].holder != item.holder {
          ghost var before := adj;
          var row := if item.holder in adj then adj[item.holder] else map[];
          adj := adj[item.holder := row[locks[item.lockName].holder := item.lockName]];
          AddEdge(before, item.holder, locks[item.lockName].holder, item.lockName);
          AddLabel(s, before, item);
        }
      }
      assert queue[..|queue|] == queue;
    }

    /** The witness of a refused request, empty when the request may queue. */
    method CheckDeadlock(waiter: string, name: string, holder: string) returns (cycle: seq<WaitEdge>)
      ensures cycle != [] <==> SeesCycle(View(), waiter, holder)
      ensures RealCycle(View(), WaitEdge(waiter, name, holder), cycle)
    {
      hide LabelsOk, RealCycle, WaitGraph, Edges, Labels, CycleReachable;
      var adj := BuildWaitGraph();
      ghost var known := adj;
      var row := if waiter in adj then adj[waiter] else map[];
      adj := adj[waiter := row[holder := name]];
      AddEdge(known, waiter, holder, name);
      var nodes, lockNames, found := DetectCycle(adj, waiter);
      if !found {
        NoWitness(View(), WaitEdge(waiter, name, holder));
        return [];
      }
      cycle := LabelCycle(nodes, lockNames);
      WitnessIsReal(View(), known, WaitEdge(waiter, name, holder), adj, nodes, lockNames, cycle);
    }

    static method LabelCycle(nodes: seq<string>, lockNames: seq<string>) returns (cycle: seq<WaitEdge>)
      requires |nodes| == |lockNames|
      ensures |cycle| == |nodes|
      ensures forall j | 0 <= j < |nodes| ::
                cycle[j] == WaitEdge(nodes[j], lockNames[j], nodes[(j + 1) % |nodes|])
    {
      cycle := [];
      for i := 0 to |nodes|
        invariant |cycle| == i
        invariant forall j | 0 <= j < i ::
                    cycle[j] == WaitEdge(nodes[j], lockNames[j], nodes[(j + 1) % |nodes|])
      {
        var next := if i + 1 < |nodes| then nodes[i + 1] else nodes[0];
        NextIndex(i, |nodes|);
        cycle := cycle + [WaitEdge(nodes[i], lockNames[i], next)];
      }
    }

    // -------------------------------------------------------------- acquire

    method AcquireLock(name: string, holder: string, leaseSec: int, reentrant: bool, env: Env)
      returns (r: Outcome, cycle: seq<WaitEdge>)
      requires name != "" && holder != ""
      modifies this, issuer
      ensures View() == Acquire(old(View()), name, holder, leaseSec, reentrant, env)
      ensures r == AcquireOutcome(old(View()), name, holder, leaseSec, reentrant, env)
      ensures r == Deadlock ==>
                cycle != [] && RealCycle(old(View()), WaitEdge(holder, name, old(locks)[name].holder), cycle)
    {
      hide SeesCycle, Hold, CappedLease, Rows, InQueue, QueueUp;
      cycle := [];
      if leaseSec <= 0 || !env.admits(name, holder, leaseSec) {
        return Refused, cycle;
      }
      if !env.withinBudget(holder, name, leaseSec) {
        return BudgetRejected, cycle;
      }
      if !env.underLimit(holder) {
        return Refused, cycle;
      }
      if name in locks && locks[name].status == Held {
        r, cycle := AcquireHeld(name, holder, leaseSec, reentrant, env);
        return;
      }
      if name !in locks {
        locks := locks[name := Lock(Free, "", reentrant, 0)];
      }
      var effective := leaseSec;
      if name in accelerated && accelerated[name] > 0 && effective > accelerated[name] {
        effective := accelerated[name];
      }
      CapIs(old(View()), name, leaseSec);
      HoldOver(old(View()), View(), name, holder, reentrant, effective, env.now);
      HoldLock(name, holder, reentrant, effective, env.now);
      r := Acquired;
    }

    /** The part of AcquireLock for a lock that is held. */
    method AcquireHeld(name: string, holder: string, leaseSec: int, reentrant: bool, env: Env)
      returns (r: Outcome, cycle: seq<WaitEdge>)
      requires IsHeld(View(), name) && leaseSec > 0 && env.admits(name, holder, leaseSec)
      requires env.withinBudget(holder, name, leaseSec) && env.underLimit(holder)
      modifies this
      ensures View() == Acquire(old(View()), name, holder, leaseSec, reentrant, env)
      ensures r == AcquireOutcome(old(View()), name, holder, leaseSec, reentrant, env)
      ensures r == Deadlock ==>
                cycle != [] && RealCycle(old(View()), WaitEdge(holder, name, old(locks)[name].holder), cycle)
    {
      hide SeesCycle, Rows, InQueue, GoldFirst, RealCycle;
      cycle := [];
      var lock := locks[name];
      if lock.holder == holder {
        if lock.reentrant && reentrant {
          locks := locks[name := lock.(count := lock.count + 1)];
          return Acquired, cycle;
        }
        return Refused, cycle;
      }
      cycle := CheckDeadlock(holder, name, lock.holder);
      if cycle != [] {
        return Deadlock, cycle;
      }
      var rows := Rows(queue, name);
      var already := AnyOfHolder(rows, holder);
      if already {
        return Refused, cycle;
      }
      r := Queued(|rows| + 1);
      ghost var s := View();
      queue := queue + [WaitItem(nextId, name, holder, reentrant, leaseSec, env.now, env.now + WAIT_TIMEOUT)];
      nextId := nextId + 1;
      assert View() == Enqueue(s, WaitItem(0, name, holder, reentrant, leaseSec, env.now, env.now + WAIT_TIMEOUT));
      if env.isGold(holder) {
        ReorderWaitQueueForGold(name, holder);
      }
    }

    static method AnyOfHolder(rows: seq<WaitItem>, holder: string) returns (found: bool)
      ensures found <==> InQueue(rows, holder)
    {
      for i := 0 to |rows|
        invariant forall j | 0 <= j < i :: rows[j].holder != holder
      {
        if rows[i].holder == holder {
          assert rows[i] in rows;
          return true;
        }
      }
      found := false;
    }

    // -------------------------------------------------------------- lease length

    method RenewLease(name: string, holder: string, addSec: int, now: int) returns (ok: bool)
      modifies this`leases, this`timers
      ensures View() == Renew(old(View()), name, holder, addSec, now)
      ensures ok <==> Renewable(old(View()), name, holder, now)
    {
      var active := ActiveLeases(leases, name);
      if active == [] || active[|active| - 1].holder != holder || active[|active| - 1].expiresAt < now {
        return false;
      }
      var lease := active[|active| - 1];
      var addSeconds := addSec;
      if name in accelerated && accelerated[name] > 0 {
        var maxAllowed := now + accelerated[name] * SECOND;
        if lease.expiresAt + addSec * SECOND > maxAllowed {
          addSeconds := (maxAllowed - now) / SECOND;
        }
      }
      var expiry := lease.expiresAt + addSeconds * SECOND;
      leases := SetExpiry(leases, name, expiry);
      timers := timers[name := expiry];
      ok := true;
    }

    method ShortenLease(name: string, newLeaseSec: int, now: int) returns (ok: bool)
      modifies this`leases, this`timers
      ensures View() == Shorten(old(View()), name, newLeaseSec, now)
    {
      var active := ActiveLeases(leases, name);
      if active == [] || newLeaseSec <= 0 {
        return false;
      }
      var expiry := now + newLeaseSec * SECOND;
      if expiry > active[|active| - 1].expiresAt {
        expiry := active[|active| - 1].expiresAt;
      }
      leases := SetExpiry(leases, name, expiry);
      timers := timers[name := expiry];
      ok := true;
    }

    method SetAcceleratedGrant(name: string, enabled: bool, cooldownSec: int)
      modifies this`accelerated
      ensures View() == SetAccelerated(old(View()), name, enabled, cooldownSec)
    {
      accelerated := if enabled then accelerated[name := cooldownSec] else accelerated - {name};
    }

    // -------------------------------------------------------------- batch

    method AcquireLockNoQueue(name: string, holder: string, leaseSec: int, reentrant: bool, env: Env)
      returns (r: NoQueueOutcome)
      requires QueueOk(View()) && name != "" && holder != "" && leaseSec > 0
      modifies this, issuer
      ensures View() == AcquireNoQueue(old(View()), name, holder, leaseSec, reentrant, env)
      ensures r == NoQueue(old(View()), name, holder, leaseSec, reentrant, env)
      ensures QueueOk(View())
    {
      hide Hold, QueueOk;
      HoldQueue(View(), name, holder, reentrant, leaseSec, env.now);
      if !env.admits(name, holder, leaseSec) {
        return Rejected;
      }
      if !env.withinBudget(holder, name, leaseSec) {
        return OverBudget;
      }
      if name in locks && locks[name].status == Held {
        var lock := locks[name];
        if lock.holder == holder && lock.reentrant && reentrant {
          locks := locks[name := lock.(count := lock.count + 1)];
          return CountedUp;
        }
        return Rejected;
      }
      if name !in locks {
        locks := locks[name := Lock(Free, "", reentrant, 0)];
      }
      HoldOver(old(View()), View(), name, holder, reentrant, leaseSec, env.now);
      HoldLock(name, holder, reentrant, leaseSec, env.now);
      r := Taken;
    }

    method RollbackBatch(names: seq<string>, holder: string, env: Env)
      requires QueueOk(View())
      modifies this, issuer
      ensures View() == ReleaseBack(old(View()), names, holder, env)
    {
      hide Release, QueueOk;
      var i := |names|;
      assert names[..i] == names;
      while i > 0
        invariant 0 <= i <= |names| && QueueOk(View())
        invariant ReleaseBack(View(), names[..i], holder, env) == ReleaseBack(old(View()), names, holder, env)
      {
        i := i - 1;
        assert names[..i + 1][..i] == names[..i];
        var _ := ReleaseLock(names[i], holder, env);
      }
    }

    /** `names` is the sorted list of the distinct requested names. */
    method AcquireSorted(names: seq<string>, holder: string, leaseSec: int, reentrant: bool, env: Env)
      returns (r: BatchOutcome)
      requires QueueOk(View()) && holder != "" && leaseSec > 0 && "" !in names
      modifies this, issuer
      ensures (View(), r) == BatchOf(old(View()), names, holder, leaseSec, reentrant, env)
    {
      hide ReleaseBack, NoQueue, Hold, QueueOk;
      var i := 0;
      while i < |names|
        invariant 0 <= i <= |names|
        invariant forall j | 0 <= j < i :: !IsHeld(View(), names[j])
      {
        if names[i] in locks && locks[names[i]].status == Held {
          return BatchHeldBy(names[i], locks[names[i]].holder);
        }
        i := i + 1;
      }

      i := 0;
      assert names[0..] == names;
      while i < |names|
        invariant 0 <= i <= |names| && QueueOk(View())
        invariant var (t, n) := TakeEach(View(), names[i..], holder, leaseSec, reentrant, env);
                  TakeEach(old(View()), names, holder, leaseSec, reentrant, env) == (t, n + i)
      {
        assert names[i..][0] == names[i] && names[i..][1..] == names[i + 1..];
        var taken := AcquireLockNoQueue(names[i], holder, leaseSec, reentrant, env);
        if taken == Rejected || taken == OverBudget {
          RollbackBatch(names[..i], holder, env);
          return if taken == OverBudget then BatchOverBudget(names[i]) else BatchRefused(names[i]);
        }
        i := i + 1;
      }
      r := BatchAcquired;
    }

    /** The names as the caller gives them, in any order and with repetitions. */
    method AcquireLocksBatch(names: seq<string>, holder: string, leaseSec: int, reentrant: bool, env: Env)
      returns (r: BatchOutcome)
      requires QueueOk(View()) && holder != "" && "" !in names
      modifies this, issuer
      ensures leaseSec <= 0 || names == [] ==> r == BatchInvalid && View() == old(View())
      ensures leaseSec > 0 && names != [] ==>
                (View(), r) == BatchOf(old(View()), Names.SortDistinct(names), holder, leaseSec, reentrant, env)
    {
      if leaseSec <= 0 || |names| == 0 {
        return BatchInvalid;
      }
      Names.SortDistinctSorts(names);
      r := AcquireSorted(Names.SortDistinct(names), holder, leaseSec, reentrant, env);
    }
  }

  // ---------------------------------------------------------------- about granting

  lemma DequeueFirst(s: State, name: string)
    requires QueueOk(s) && Rows(s.queue, name) != []
    ensures var q := Rows(s.queue, name);
            var t := s.(queue := Without(s.queue, {q[0].id}));
            QueueOk(t) && Rows(t.queue, name) == q[1..]
  {
    hide Without, QueueOk;
    var q := Rows(s.queue, name);
    assert q[..1] == [q[0]];
    assert Ids(q[..1]) == {q[0].id};
    DropPrefix(s, name, 1);
    QueueShrinks(s, {q[0].id});
  }

  lemma RowOfLock(s: State, name: string)
    requires QueueOk(s) && Rows(s.queue, name) != []
    ensures var item := Rows(s.queue, name)[0];
            item.lockName == name && Issuable(name, item.holder, item.leaseSec)
  {
    RowsMember(s.queue, name);
    assert Rows(s.queue, name)[0] in Rows(s.queue, name);
  }

  /** Deleting the first entry and then some more is deleting them all. */
  lemma DropOneThen(s: State, name: string, m: nat)
    requires QueueOk(s) && 1 <= m <= |Rows(s.queue, name)|
    ensures var q := Rows(s.queue, name);
            Without(Without(s.queue, {q[0].id}), Ids(q[1..][..m - 1])) == Without(s.queue, Ids(q[..m]))
  {
    hide Without, Rows, QueueOk;
    var q := Rows(s.queue, name);
    assert q[..m] == [q[0]] + q[1..][..m - 1];
    assert Ids(q[..m]) == {q[0].id} + Ids(q[1..][..m - 1]);
    WithoutTwice(s.queue, {q[0].id}, Ids(q[1..][..m - 1]));
  }

  /** One step of the recursive grant: nobody there, the first entry passed over, or granted. */
  lemma GrantCases(s: State, name: string, env: Env)
    requires QueueOk(s)
    ensures var q := Rows(s.queue, name);
            if q == [] then GrantNext(s, name, env) == s && SkipCount(q, env) == 0
            else
              var t := s.(queue := Without(s.queue, {q[0].id}));
              if Skipped(q[0], env) then
                && GrantNext(s, name, env) == GrantNext(t, name, env)
                && SkipCount(q, env) == 1 + SkipCount(q[1..], env)
              else
                && GrantNext(s, name, env) == Hold(t, name, q[0].holder, q[0].reentrant,
                                                   CappedLease(s, name, q[0].leaseSec), env.now)
                && SkipCount(q, env) == 0
  {
    hide Rows, Without, QueueOk, Hold, CappedLease;
    var q := Rows(s.queue, name);
    if q == [] {
      WithoutNone(s.queue, Ids(q));
    } else if !Skipped(q[0], env) {
      DropOneThen(s, name, 1);
      assert q[1..][..0] == [];
      assert Ids(q[..1]) == {q[0].id};
    } else {
      GrantSkips(s, name, env);
    }
  }

  /** Passing over the first entry and granting from the rest is granting from the whole. */
  lemma GrantSkips(s: State, name: string, env: Env)
    requires QueueOk(s) && Rows(s.queue, name) != [] && Skipped(Rows(s.queue, name)[0], env)
    ensures var q := Rows(s.queue, name);
            GrantNext(s, name, env) == GrantNext(s.(queue := Without(s.queue, {q[0].id})), name, env)
  {
    hide Rows, Without, QueueOk, Hold;
    var q := Rows(s.queue, name);
    var k := SkipCount(q, env);
    DequeueFirst(s, name);
    assert k == 1 + SkipCount(q[1..], env);
    if k == |q| {
      DropOneThen(s, name, k);
      assert q[..k] == q && q[1..][..k - 1] == q[1..];
    } else {
      DropOneThen(s, name, k + 1);
    }
  }

  lemma VacateQueueOk(s: State, name: string)
    requires QueueOk(s) && name in s.locks
    ensures QueueOk(Vacate(s, name))
  {
  }

  lemma GrantQueueOk(s: State, name: string, env: Env)
    requires QueueOk(s)
    ensures QueueOk(GrantNext(s, name, env))
  {
    hide Without, Rows;
    var q := Rows(s.queue, name);
    var k := SkipCount(q, env);
    QueueShrinks(s, if k == |q| then Ids(q) else Ids(q[..k + 1]));
  }

  lemma ReleaseQueueOk(s: State, name: string, holder: string, env: Env)
    requires QueueOk(s)
    ensures QueueOk(Release(s, name, holder, env))
  {
    hide GrantNext;
    if Releasing(s, name, holder) == Released {
      VacateQueueOk(s, name);
      GrantQueueOk(Vacate(s, name), name, env);
    }
  }

  lemma HoldQueue(s: State, name: string, holder: string, reentrant: bool, leaseSec: int, now: int)
    requires QueueOk(s)
    ensures QueueOk(Hold(s, name, holder, reentrant, leaseSec, now))
    ensures forall l :: QueueOk(s.(locks := l))
  {
  }

  /** A free row written first does not show once the lock is held. */
  lemma HoldOver(s: State, t: State, name: string, holder: string, reentrant: bool, leaseSec: int, now: int)
    requires t == s || t == s.(locks := s.locks[name := Lock(Free, "", reentrant, 0)])
    ensures Hold(t, name, holder, reentrant, leaseSec, now) == Hold(s, name, holder, reentrant, leaseSec, now)
  {
    var h := Lock(Held, holder, reentrant, 1);
    assert s.locks[name := Lock(Free, "", reentrant, 0)][name := h] == s.locks[name := h];
  }

  lemma CapIs(s: State, name: string, leaseSec: int)
    ensures CappedLease(s, name, leaseSec)
            == if name in s.accelerated && s.accelerated[name] > 0 && leaseSec > s.accelerated[name]
               then s.accelerated[name] else leaseSec
  {
  }

  lemma SplitSize(rows: seq<WaitItem>, holder: string)
    ensures |OfHolder(rows, holder)| + |NotOfHolder(rows, holder)| == |rows|
  {
    HolderSplitMembers(rows, holder);
  }

  lemma DropNone(items: seq<WaitItem>, now: int, holder: string)
    ensures Without(items, TimedOut(items[..0], now)) == items
    ensures Without(items, WaitsOf(items[..0], holder)) == items
  {
    WithoutNone(items, {});
    assert TimedOut(items[..0], now) == {} && WaitsOf(items[..0], holder) == {};
  }

  lemma TimedOutNext(items: seq<WaitItem>, i: nat, now: int)
    requires i < |items|
    ensures items[i].timeoutAt < now ==>
              Without(items, TimedOut(items[..i + 1], now)) == Without(Without(items, TimedOut(items[..i], now)), {items[i].id})
    ensures items[i].timeoutAt >= now ==> TimedOut(items[..i + 1], now) == TimedOut(items[..i], now)
  {
    hide Without;
    var before, after := items[..i], items[..i + 1];
    assert after == before + [items[i]];
    if items[i].timeoutAt < now {
      assert items[i] in after;
      assert TimedOut(after, now) == TimedOut(before, now) + {items[i].id};
      WithoutTwice(items, TimedOut(before, now), {items[i].id});
    }
  }

  lemma WaitsOfNext(items: seq<WaitItem>, i: nat, holder: string)
    requires i < |items|
    ensures items[i].holder == holder ==>
              Without(items, WaitsOf(items[..i + 1], holder)) == Without(Without(items, WaitsOf(items[..i], holder)), {items[i].id})
    ensures items[i].holder != holder ==> WaitsOf(items[..i + 1], holder) == WaitsOf(items[..i], holder)
    ensures |OfHolder(items[..i + 1], holder)|
            == |OfHolder(items[..i], holder)| + (if items[i].holder == holder then 1 else 0)
  {
    var before, after := items[..i], items[..i + 1];
    assert after == before + [items[i]];
    OfHolderAppend(before, items[i], holder);
    if items[i].holder == holder {
      assert items[i] in after;
      assert WaitsOf(after, holder) == WaitsOf(before, holder) + {items[i].id};
      WithoutTwice(items, WaitsOf(before, holder), {items[i].id});
    }
  }

  lemma {:induction false} OfHolderAppend(a: seq<WaitItem>, r: WaitItem, holder: string)
    ensures OfHolder(a + [r], holder) == OfHolder(a, holder) + if r.holder == holder then [r] else []
    ensures NotOfHolder(a + [r], holder) == NotOfHolder(a, holder) + if r.holder == holder then [] else [r]
  {
    if a != [] {
      assert (a + [r])[1..] == a[1..] + [r];
      OfHolderAppend(a[1..], r, holder);
    }
  }

  // ---------------------------------------------------------------- about deadlock witnesses

  ghost function EdgesOf(s: State, rows: seq<WaitItem>): Graph {
    set r | r in rows && Waits(s, r) :: (r.holder, s.locks[r.lockName].holder)
  }

  lemma EmptyGraph(s: State)
    ensures Edges(map[]) == EdgesOf(s, []) && LabelsOk(s, map[])
  {
  }

  /** `waiter` queues for `lockName`, which `holder` holds. */
  ghost predicate IsWait(s: State, e: WaitEdge) {
    exists r :: r in s.queue && Waits(s, r) && r.holder == e.waiter && r.lockName == e.lockName
                && s.locks[r.lockName].holder == e.holder
  }

  ghost predicate LabelsOk(s: State, adj: Adjacency) {
    forall w, h | w in adj && h in adj[w] :: IsWait(s, WaitEdge(w, adj[w][h], h))
  }

  /** A closed chain of waits: each one is in the queue or is the request itself. */
  ghost predicate RealCycle(s: State, request: WaitEdge, cycle: seq<WaitEdge>) {
    && (forall i | 0 <= i < |cycle| :: IsWait(s, cycle[i]) || cycle[i] == request)
    && (forall i | 0 <= i < |cycle| :: cycle[i].holder == cycle[(i + 1) % |cycle|].waiter)
    && (forall i, j | 0 <= i < j < |cycle| :: cycle[i].waiter != cycle[j].waiter)
  }

  lemma NoWitness(s: State, request: WaitEdge)
    ensures RealCycle(s, request, [])
  {
  }

  lemma AddEdge(adj: Adjacency, w: string, h: string, l: string)
    ensures var row := if w in adj then adj[w] else map[];
            Edges(adj[w := row[h := l]]) == Edges(adj) + {(w, h)}
  {
    var row := if w in adj then adj[w] else map[];
    var adj' := adj[w := row[h := l]];
    forall e ensures e in Edges(adj') <==> e in Edges(adj) || e == (w, h) {
    }
  }

  lemma AddLabel(s: State, adj: Adjacency, item: WaitItem)
    requires LabelsOk(s, adj) && item in s.queue && Waits(s, item)
    ensures var row := if item.holder in adj then adj[item.holder] else map[];
            LabelsOk(s, adj[item.holder := row[s.locks[item.lockName].holder := item.lockName]])
  {
    assert IsWait(s, WaitEdge(item.holder, item.lockName, s.locks[item.lockName].holder));
  }

  lemma NextIndex(i: nat, n: nat)
    requires i < n
    ensures (i + 1) % n == if i + 1 < n then i + 1 else 0
  {
  }

  lemma WitnessIsReal(s: State, known: Adjacency, request: WaitEdge, adj: Adjacency,
                      nodes: seq<string>, lockNames: seq<string>, cycle: seq<WaitEdge>)
    requires LabelsOk(s, known)
    requires adj == known[request.waiter :=
                           (if request.waiter in known then known[request.waiter] else map[])[request.holder := request.lockName]]
    requires IsCycle(Edges(adj), nodes) && |lockNames| == |nodes| == |cycle|
    requires forall i | 0 <= i < |nodes| :: Labels(adj, nodes, i, lockNames[i])
    requires forall i | 0 <= i < |nodes| :: cycle[i] == WaitEdge(nodes[i], lockNames[i], nodes[(i + 1) % |nodes|])
    ensures RealCycle(s, request, cycle)
  {
    forall i | 0 <= i < |cycle| ensures IsWait(s, cycle[i]) || cycle[i] == request {
      assert Labels(adj, nodes, i, lockNames[i]);
    }
    forall i | 0 <= i < |cycle| ensures cycle[i].holder == cycle[(i + 1) % |cycle|].waiter {
      NextIndex(i, |cycle|);
    }
  }
}
