/** The lock side of a transaction: every lock is taken afresh, or the lock table is as before and
    the holder has left every wait queue. */
module TxLocks {
  import opened Graphs
  import opened LockTables
  import opened LockSpec
  import opened LockInvariants
  import opened LockBatch
  import opened QueueOrder
  import opened TxSpec

  /** Everybody else's entries in the queue of a lock, in order, without their ids. */
  function Others(s: State, name: string, holder: string): seq<WaitItem> {
    NotOfHolder(Entries(Rows(s.queue, name)), holder)
  }

  /** Nobody else has lost or gained a place. */
  ghost predicate SameOthers(s: State, t: State, holder: string) {
    forall n :: Others(t, n, holder) == Others(s, n, holder)
  }

  /** The request would succeed on its own: the lock is free and every guard lets it pass. */
  predicate Admitted(name: string, holder: string, leaseSec: int, env: Env) {
    && leaseSec > 0 && env.admits(name, holder, leaseSec)
    && env.withinBudget(holder, name, leaseSec) && env.underLimit(holder)
  }

  ghost predicate NamesValid(items: seq<LockItem>) {
    forall i | 0 <= i < |items| :: items[i].name != ""
  }

  // ---------------------------------------------------------------- the holder's own entries

  lemma {:induction false} NotOfHolderAppend(a: seq<WaitItem>, b: seq<WaitItem>, holder: string)
    ensures NotOfHolder(a + b, holder) == NotOfHolder(a, holder) + NotOfHolder(b, holder)
  {
    if a == [] {
      assert a + b == b;
    } else {
      assert (a + b)[1..] == a[1..] + b;
      NotOfHolderAppend(a[1..], b, holder);
    }
  }

  lemma {:induction false} OwnLeft(rows: seq<WaitItem>, ids: set<nat>, holder: string)
    requires forall r | r in rows :: r.id in ids <==> r.holder == holder
    ensures Entries(Without(rows, ids)) == NotOfHolder(Entries(rows), holder)
  {
    if rows != [] {
      var head, tail := rows[0], rows[1..];
      assert head in rows;
      OwnLeft(tail, ids, holder);
      assert Entries(rows)[0] == head.(id := 0) && Entries(rows)[1..] == Entries(tail);
      if head.id !in ids {
        assert Entries([head] + Without(tail, ids)) == [head.(id := 0)] + Entries(Without(tail, ids));
      }
    }
  }

  /** Cancelling a holder's waits leaves exactly the others' entries in every queue. */
  lemma CancelLeavesOthers(s: State, holder: string, n: string)
    requires QueueOk(s)
    ensures Entries(Rows(CancelWaits(s, holder).queue, n)) == Others(s, n, holder)
  {
    var ids := WaitsOf(s.queue, holder);
    RowsWithout(s.queue, ids, n);
    RowsMember(s.queue, n);
    hide Rows;
    forall r | r in Rows(s.queue, n) ensures r.id in ids <==> r.holder == holder {
      if r.id in ids {
        var own :| own in s.queue && own.holder == holder && own.id == r.id;
        IdUnique(s.queue, s.nextId, own, r);
      }
    }
    OwnLeft(Rows(s.queue, n), ids, holder);
  }

  /** A request that queues adds an entry of the holder and moves nobody else. */
  lemma QueueUpSameOthers(s: State, name: string, holder: string, leaseSec: int, reentrant: bool, env: Env)
    requires QueueOk(s) && !InQueue(Rows(s.queue, name), holder)
    ensures SameOthers(s, QueueUp(s, name, holder, leaseSec, reentrant, env), holder)
  {
    hide QueueUp, Rows, Entries, NotOfHolder, QueueOk;
    QueueUpRows(s, name, holder, leaseSec, reentrant, env);
    var before := Entries(Rows(s.queue, name));
    var item := Entry(name, holder, leaseSec, reentrant, env);
    NotOfHolderAppend(before, [item], holder);
    NotOfHolderAppend([item], before, holder);
    OwnEntry(item, holder);
  }

  lemma OwnEntry(item: WaitItem, holder: string)
    requires item.holder == holder
    ensures NotOfHolder([item], holder) == []
  {
  }

  // ---------------------------------------------------------------- taking

  /** One request of the transaction on top of the locks it already has. */
  lemma OneRequest(s: State, t: State, have: set<string>, item: LockItem, holder: string, env: Env)
    requires HoldsExtra(s, t, have, holder, false) && SameQueue(s, t) && Inv(s) && item.name != "" && holder != ""
    ensures var o := AcquireOutcome(t, item.name, holder, item.leaseSec, false, env);
            var u := Acquire(t, item.name, holder, item.leaseSec, false, env);
            && (o == Acquired <==> item.name !in have && !IsHeld(s, item.name) && Admitted(item.name, holder, item.leaseSec, env))
            && (o == Acquired ==> HoldsExtra(s, u, have + {item.name}, holder, false) && SameQueue(s, u))
            && (o != Acquired ==> HoldsExtra(s, u, have, holder, false) && SameOthers(s, u, holder) && QueueOk(u)
                                  && forall n | n in have :: Rows(u.queue, n) == [])
  {
    var name := item.name;
    HeldAfter(s, t, have, holder, name);
    HaveNoRows(s, t, have, holder);
    InvQueue(s);
    hide Inv, HoldsExtra, SeesCycle, QueueUp, QueueOk, Rows, CappedLease, SameOthers, Hold, InQueue;
    var o := AcquireOutcome(t, name, holder, item.leaseSec, false, env);
    if o == Acquired {
      FreeIsBareHere(s, name);
      HoldAdds(s, t, have, holder, false, name, CappedLease(t, name, item.leaseSec), env.now);
    } else if o.Queued? {
      QueuedHere(s, t, have, item, holder, env);
    } else {
      SameOthersRefl(s, t, holder);
    }
  }

  lemma InvQueue(s: State)
    requires Inv(s)
    ensures QueueOk(s)
  {
  }

  lemma FreeIsBareHere(s: State, name: string)
    requires Inv(s) && !IsHeld(s, name)
    ensures Bare(s, name) && Rows(s.queue, name) == []
  {
    FreeIsBare(s, name);
  }

  lemma SameOthersRefl(s: State, t: State, holder: string)
    requires SameQueue(s, t)
    ensures SameOthers(s, t, holder) && (QueueOk(s) ==> QueueOk(t))
  {
  }

  lemma HeldAfter(s: State, t: State, have: set<string>, holder: string, name: string)
    requires HoldsExtra(s, t, have, holder, false)
    ensures IsHeld(t, name) <==> name in have || IsHeld(s, name)
    ensures name in have ==> t.locks[name] == Lock(Held, holder, false, 1)
    ensures name !in have && IsHeld(s, name) ==> t.locks[name] == s.locks[name]
  {
    if name in have {
      assert FreshlyHeld(s, t, name, holder, false);
    } else {
      assert SameHolding(s, t, name);
    }
  }

  lemma HaveNoRows(s: State, t: State, have: set<string>, holder: string)
    requires HoldsExtra(s, t, have, holder, false) && Inv(s) && SameQueue(s, t)
    ensures forall n | n in have :: Rows(t.queue, n) == []
  {
    hide Inv, Rows;
    forall n | n in have ensures Rows(t.queue, n) == [] {
      assert FreshlyHeld(s, t, n, holder, false);
      FreeIsBareHere(s, n);
    }
  }

  lemma QueuedHere(s: State, t: State, have: set<string>, item: LockItem, holder: string, env: Env)
    requires HoldsExtra(s, t, have, holder, false) && SameQueue(s, t) && Inv(s) && item.name != "" && holder != ""
    requires AcquireOutcome(t, item.name, holder, item.leaseSec, false, env).Queued?
    ensures var u := QueueUp(t, item.name, holder, item.leaseSec, false, env);
            && HoldsExtra(s, u, have, holder, false) && SameOthers(s, u, holder) && QueueOk(u)
            && forall n | n in have :: Rows(u.queue, n) == []
  {
    var name := item.name;
    HeldAfter(s, t, have, holder, name);
    HaveNoRows(s, t, have, holder);
    InvQueue(s);
    SameOthersRefl(s, t, holder);
    hide Inv, SeesCycle, Rows, InQueue, HoldsExtra;
    QueueUpSameOthers(t, name, holder, item.leaseSec, false, env);
    QueueUpRows(t, name, holder, item.leaseSec, false, env);
    QueueUpOk(t, name, holder, item.leaseSec, env);
    var u := QueueUp(t, name, holder, item.leaseSec, false, env);
    OnlyQueueHolds(s, t, u, have, holder);
  }

  /** What is held does not depend on who waits. */
  lemma OnlyQueueHolds(s: State, t: State, u: State, have: set<string>, holder: string)
    requires HoldsExtra(s, t, have, holder, false) && u == t.(queue := u.queue, nextId := u.nextId)
    ensures HoldsExtra(s, u, have, holder, false)
  {
    forall n | n in have ensures FreshlyHeld(s, u, n, holder, false) {
      assert FreshlyHeld(s, t, n, holder, false);
    }
    forall n | n !in have ensures SameHolding(s, u, n) {
      assert SameHolding(s, t, n);
    }
  }

  lemma QueueUpOk(t: State, name: string, holder: string, leaseSec: int, env: Env)
    requires QueueOk(t) && name != "" && holder != "" && leaseSec > 0 && !InQueue(Rows(t.queue, name), holder)
    ensures QueueOk(QueueUp(t, name, holder, leaseSec, false, env))
  {
    var item := Entry(name, holder, leaseSec, false, env);
    RowsMember(t.queue, name);
    hide Rows, GoldFirst;
    forall r | r in t.queue && r.lockName == name ensures r.holder != holder {
      assert r in Rows(t.queue, name);
    }
    EnqueueOk(t, item);
    hide QueueOk, Enqueue;
    GoldQueueOk(Enqueue(t, item), name, holder);
  }

  lemma EnqueueOk(t: State, item: WaitItem)
    requires QueueOk(t) && item.lockName != "" && item.holder != "" && item.leaseSec > 0
    requires forall r | r in t.queue && r.lockName == item.lockName :: r.holder != item.holder
    ensures QueueOk(Enqueue(t, item))
  {
  }

  /** All requests up to the first that fails. */
  ghost predicate AllAdmitted(s: State, have: set<string>, items: seq<LockItem>, holder: string, envs: nat -> Env, from: nat)
  {
    && (forall i, j | 0 <= i < j < |items| :: items[i].name != items[j].name)
    && forall i | 0 <= i < |items| :: items[i].name !in have && !IsHeld(s, items[i].name)
                                      && Admitted(items[i].name, holder, items[i].leaseSec, envs(from + i))
  }

  lemma AdmittedHead(s: State, have: set<string>, items: seq<LockItem>, holder: string, envs: nat -> Env, from: nat)
    requires items != []
    ensures AllAdmitted(s, have, items, holder, envs, from) <==>
              && items[0].name !in have && !IsHeld(s, items[0].name)
              && Admitted(items[0].name, holder, items[0].leaseSec, envs(from))
              && AllAdmitted(s, have + {items[0].name}, items[1..], holder, envs, from + 1)
  {
    hide Admitted, IsHeld;
    if AllAdmitted(s, have + {items[0].name}, items[1..], holder, envs, from + 1) {
      forall j | 0 < j < |items|
        ensures items[j].name !in have + {items[0].name} && !IsHeld(s, items[j].name)
                && Admitted(items[j].name, holder, items[j].leaseSec, envs(from + j))
      {
        assert items[j] == items[1..][j - 1] && from + 1 + (j - 1) == from + j;
      }
      forall i, j | 0 <= i < j < |items| ensures items[i].name != items[j].name {
        if i > 0 {
          assert items[i] == items[1..][i - 1] && items[j] == items[1..][j - 1];
        }
      }
    }
    if AllAdmitted(s, have, items, holder, envs, from) {
      forall i | 0 <= i < |items[1..]|
        ensures items[1..][i].name !in have + {items[0].name} && !IsHeld(s, items[1..][i].name)
                && Admitted(items[1..][i].name, holder, items[1..][i].leaseSec, envs(from + 1 + i))
      {
        assert items[1..][i] == items[i + 1] && from + 1 + i == from + (i + 1);
      }
    }
  }

  /** What taking `n` of the locks, on top of those in `have`, has led to. */
  ghost predicate Took(s: State, u: State, have: set<string>, items: seq<LockItem>, n: nat, holder: string,
                       envs: nat -> Env, from: nat) {
    && n <= |items|
    && HoldsExtra(s, u, have + Members(NamesOf(items[..n])), holder, false)
    && (forall x | x in have + Members(NamesOf(items[..n])) :: Rows(u.queue, x) == [])
    && Distinct(NamesOf(items[..n])) && (forall i | 0 <= i < n :: items[i].name !in have)
    && (n == |items| <==> AllAdmitted(s, have, items, holder, envs, from))
    && (n == |items| ==> SameQueue(s, u))
    && SameOthers(s, u, holder) && QueueOk(u)
  }

  lemma {:induction false} TakeLocksAdds(s: State, t: State, have: set<string>, items: seq<LockItem>, holder: string,
                                         envs: nat -> Env, from: nat)
    requires HoldsExtra(s, t, have, holder, false) && SameQueue(s, t) && Inv(s) && holder != "" && NamesValid(items)
    ensures var (u, n) := TakeLocks(t, items, holder, envs, from);
            Took(s, u, have, items, n, holder, envs, from)
    decreases |items|
  {
    hide Inv, HoldsExtra, Acquire, AcquireOutcome, SameOthers, QueueOk, Rows, AllAdmitted, Admitted, Took;
    if items == [] {
      TookNone(s, t, have, items, holder, envs, from);
    } else {
      var name := items[0].name;
      OneRequest(s, t, have, items[0], holder, envs(from));
      AdmittedHead(s, have, items, holder, envs, from);
      var t' := Acquire(t, name, holder, items[0].leaseSec, false, envs(from));
      if AcquireOutcome(t, name, holder, items[0].leaseSec, false, envs(from)) != Acquired {
        TookFailed(s, t', have, items, holder, envs, from);
      } else {
        TakeLocksAdds(s, t', have + {name}, items[1..], holder, envs, from + 1);
        var (u, n) := TakeLocks(t', items[1..], holder, envs, from + 1);
        TookOneMore(s, u, have, items, n, holder, envs, from);
      }
    }
  }

  lemma TookNone(s: State, t: State, have: set<string>, items: seq<LockItem>, holder: string, envs: nat -> Env, from: nat)
    requires items == [] && Inv(s) && HoldsExtra(s, t, have, holder, false) && SameQueue(s, t)
    ensures Took(s, t, have, items, 0, holder, envs, from)
  {
    HaveNoRows(s, t, have, holder);
    SameOthersRefl(s, t, holder);
    InvQueue(s);
    hide Inv, HoldsExtra, SameOthers, QueueOk, Rows, Admitted;
    assert have + Members(NamesOf(items[..0])) == have;
  }

  lemma TookFailed(s: State, t: State, have: set<string>, items: seq<LockItem>, holder: string, envs: nat -> Env, from: nat)
    requires items != [] && HoldsExtra(s, t, have, holder, false) && SameOthers(s, t, holder) && QueueOk(t)
    requires !AllAdmitted(s, have, items, holder, envs, from) && forall n | n in have :: Rows(t.queue, n) == []
    ensures Took(s, t, have, items, 0, holder, envs, from)
  {
    hide HoldsExtra, SameOthers, QueueOk, Rows, AllAdmitted;
    assert have + Members(NamesOf(items[..0])) == have;
  }

  lemma TookOneMore(s: State, u: State, have: set<string>, items: seq<LockItem>, n: nat, holder: string, envs: nat -> Env, from: nat)
    requires items != [] && items[0].name !in have
    requires Took(s, u, have + {items[0].name}, items[1..], n, holder, envs, from + 1)
    requires AllAdmitted(s, have, items, holder, envs, from)
             <==> AllAdmitted(s, have + {items[0].name}, items[1..], holder, envs, from + 1)
    ensures Took(s, u, have, items, n + 1, holder, envs, from)
  {
    hide HoldsExtra, SameOthers, QueueOk, Rows, AllAdmitted;
    var name := items[0].name;
    NamesHead(items, n);
    assert have + {name} + Members(NamesOf(items[1..][..n])) == have + Members(NamesOf(items[..n + 1]));
    forall i | 0 <= i < n + 1 ensures items[i].name !in have {
      assert i > 0 ==> items[i] == items[1..][i - 1];
    }
  }

  lemma NamesHead(items: seq<LockItem>, n: nat)
    requires items != [] && n < |items|
    ensures NamesOf(items[..n + 1]) == [items[0].name] + NamesOf(items[1..][..n])
    ensures Members(NamesOf(items[..n + 1])) == {items[0].name} + Members(NamesOf(items[1..][..n]))
    ensures (Distinct(NamesOf(items[1..][..n])) && (forall i | 0 <= i < n :: items[1..][i].name != items[0].name))
            ==> Distinct(NamesOf(items[..n + 1]))
  {
    assert items[..n + 1] == [items[0]] + items[1..][..n];
    assert NamesOf(items[..n + 1]) == [items[0].name] + NamesOf(items[1..][..n]);
  }

  // ---------------------------------------------------------------- all or nothing

  /** The lock table as before, and every queue without the holder's entries. */
  ghost predicate Undone(s: State, t: State, holder: string) {
    && HoldsExtra(s, t, {}, holder, false)
    && forall n :: Entries(Rows(t.queue, n)) == Others(s, n, holder)
  }

  /** Rolling back whatever was taken. */
  lemma LocksUndone(s: State, items: seq<LockItem>, holder: string, envs: nat -> Env, undo: Env)
    requires Inv(s) && holder != "" && NamesValid(items)
    ensures var (u, n) := TakeLocks(s, items, holder, envs, 0);
            n <= |items| && Undone(s, CancelWaits(ReleaseBack(u, NamesOf(items[..n]), holder, undo), holder), holder)
  {
    AddsNothing(s, holder, false);
    TakeLocksAdds(s, s, {}, items, holder, envs, 0);
    hide Inv, HoldsExtra, TakeLocks, QueueOk, Rows, ReleaseBack, AllAdmitted, Others, CancelWaits;
    var (u, n) := TakeLocks(s, items, holder, envs, 0);
    var names := NamesOf(items[..n]);
    assert {} + Members(names) == Members(names);
    ReleaseBackRemoves(s, u, names, holder, false, undo);
    var v := ReleaseBack(u, names, holder, undo);
    var w := CancelWaits(v, holder);
    OnlyQueueHolds(s, v, w, {}, holder);
    forall n ensures Entries(Rows(w.queue, n)) == Others(s, n, holder) {
      CancelLeavesOthers(v, holder, n);
    }
  }
}
