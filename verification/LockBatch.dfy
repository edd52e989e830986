/** All or nothing: what a batch, and any other attempt that takes free locks one by one
    and undoes them, leaves behind. */
module LockBatch {
  import opened Graphs
  import opened Fencing
  import opened LockTables
  import opened LockSpec
  import opened LockInvariants
  import Names

  /** Lock `n` looks the same: same holder and count if held, same active lease, same timer.
      A missing row and a free row are not told apart. */
  ghost predicate SameHolding(s: State, t: State, n: string) {
    && (IsHeld(s, n) <==> IsHeld(t, n))
    && (IsHeld(s, n) ==> s.locks[n] == t.locks[n])
    && ActiveLeases(s.leases, n) == ActiveLeases(t.leases, n)
    && (n in s.timers <==> n in t.timers)
    && (n in s.timers ==> s.timers[n] == t.timers[n])
  }

  /** Lock `n` was free in `s` and is freshly held in `t`, with one lease. */
  ghost predicate FreshlyHeld(s: State, t: State, n: string, holder: string, reentrant: bool) {
    && !IsHeld(s, n) && Bare(s, n)
    && n in t.locks && t.locks[n] == Lock(Held, holder, reentrant, 1)
    && |ActiveLeases(t.leases, n)| == 1 && ActiveLeases(t.leases, n)[0].holder == holder
    && n in t.timers && t.timers[n] == ActiveLeases(t.leases, n)[0].expiresAt
  }

  /** `t` is `s` plus the locks `names`, freshly held. */
  ghost predicate HoldsExtra(s: State, t: State, names: set<string>, holder: string, reentrant: bool) {
    && (forall n | n in names :: FreshlyHeld(s, t, n, holder, reentrant))
    && (forall n | n !in names :: SameHolding(s, t, n))
    && t.accelerated == s.accelerated
  }

  ghost predicate SameQueue(s: State, t: State) {
    t.queue == s.queue && t.nextId == s.nextId
  }

  lemma HoldAdds(s: State, t: State, names: set<string>, holder: string, reentrant: bool, n: string, leaseSec: int, now: int)
    requires HoldsExtra(s, t, names, holder, reentrant) && n !in names && !IsHeld(s, n) && Bare(s, n)
    ensures HoldsExtra(s, Hold(t, n, holder, reentrant, leaseSec, now), names + {n}, holder, reentrant)
    ensures SameQueue(t, Hold(t, n, holder, reentrant, leaseSec, now))
  {
    var u := Hold(t, n, holder, reentrant, leaseSec, now);
    assert SameHolding(s, t, n);
    HoldOwn(t, n, holder, reentrant, leaseSec, now);
    forall m | m in names + {n} ensures FreshlyHeld(s, u, m, holder, reentrant) {
      if m != n {
        assert FreshlyHeld(s, t, m, holder, reentrant);
        HoldOthers(t, n, holder, reentrant, leaseSec, now, m);
      }
    }
    forall m | m !in names + {n} ensures SameHolding(s, u, m) {
      assert SameHolding(s, t, m);
      HoldOthers(t, n, holder, reentrant, leaseSec, now, m);
    }
  }

  /** Releasing a freshly held lock that nobody waits for grants it to nobody. */
  lemma ReleaseRemoves(s: State, t: State, names: set<string>, holder: string, reentrant: bool, n: string, env: Env)
    requires HoldsExtra(s, t, names, holder, reentrant) && n in names
    requires Rows(t.queue, n) == []
    ensures HoldsExtra(s, Release(t, n, holder, env), names - {n}, holder, reentrant)
    ensures SameQueue(t, Release(t, n, holder, env))
    ensures Releasing(t, n, holder) == Released
  {
    assert FreshlyHeld(s, t, n, holder, reentrant);
    var v := Vacate(t, n);
    NobodyWaiting(v, n, env);
    VacatedRemoves(s, t, names, holder, reentrant, n);
  }

  lemma NobodyWaiting(s: State, n: string, env: Env)
    requires Rows(s.queue, n) == []
    ensures GrantNext(s, n, env) == s
  {
    assert Ids([]) == {};
    WithoutNone(s.queue, {});
  }

  lemma VacatedRemoves(s: State, t: State, names: set<string>, holder: string, reentrant: bool, n: string)
    requires HoldsExtra(s, t, names, holder, reentrant) && n in names
    ensures HoldsExtra(s, Vacate(t, n), names - {n}, holder, reentrant)
  {
    var v := Vacate(t, n);
    assert FreshlyHeld(s, t, n, holder, reentrant);
    ActiveAfterDeactivate(t.leases, n, n);
    forall m | m in names - {n} ensures FreshlyHeld(s, v, m, holder, reentrant) {
      assert FreshlyHeld(s, t, m, holder, reentrant);
      VacateOthers(t, n, m);
    }
    forall m | m !in names - {n} ensures SameHolding(s, v, m) {
      if m != n {
        assert SameHolding(s, t, m);
        VacateOthers(t, n, m);
      }
    }
  }

  /** Free locks to take, none of them twice and none with waiters. */
  ghost predicate Takeable(s: State, names: seq<string>) {
    && Distinct(names)
    && forall n | n in names :: !IsHeld(s, n) && Bare(s, n) && Rows(s.queue, n) == []
  }

  lemma {:induction false} TakeEachAdds(s: State, t: State, have: set<string>, names: seq<string>,
                                        holder: string, leaseSec: int, reentrant: bool, env: Env)
    requires HoldsExtra(s, t, have, holder, reentrant) && SameQueue(s, t)
    requires Takeable(s, names) && forall n | n in names :: n !in have
    ensures var (u, k) := TakeEach(t, names, holder, leaseSec, reentrant, env);
            && k <= |names| && SameQueue(s, u)
            && HoldsExtra(s, u, have + Members(names[..k]), holder, reentrant)
            && (forall i | 0 <= i < k :: Allowed(names[i], holder, leaseSec, env))
            && (k < |names| ==> !Allowed(names[k], holder, leaseSec, env))
    decreases |names|
  {
    hide HoldsExtra, Takeable, Hold, Rows, IsHeld;
    if names != [] {
      TakeableHead(s, names);
      NotYetHeld(s, t, have, holder, reentrant, names[0]);
    }
    if names != [] && !Fails(NoQueue(t, names[0], holder, leaseSec, reentrant, env)) {
      var n := names[0];
      HoldAdds(s, t, have, holder, reentrant, n, leaseSec, env.now);
      var t' := AcquireNoQueue(t, n, holder, leaseSec, reentrant, env);
      TakeEachAdds(s, t', have + {n}, names[1..], holder, leaseSec, reentrant, env);
      var k := TakeEach(t', names[1..], holder, leaseSec, reentrant, env).1;
      assert names[..k + 1] == [n] + names[1..][..k];
      assert have + {n} + Members(names[1..][..k]) == have + Members(names[..k + 1]);
    } else {
      assert have + Members(names[..0]) == have;
    }
  }

  lemma TakeableHead(s: State, names: seq<string>)
    requires Takeable(s, names) && names != []
    ensures !IsHeld(s, names[0]) && Bare(s, names[0])
    ensures Takeable(s, names[1..]) && names[0] !in names[1..]
  {
    assert names[0] in names;
  }

  predicate Allowed(name: string, holder: string, leaseSec: int, env: Env) {
    env.admits(name, holder, leaseSec) && env.withinBudget(holder, name, leaseSec)
  }

  lemma NotYetHeld(s: State, t: State, have: set<string>, holder: string, reentrant: bool, n: string)
    requires HoldsExtra(s, t, have, holder, reentrant) && n !in have && !IsHeld(s, n)
    ensures !IsHeld(t, n)
  {
    assert SameHolding(s, t, n);
  }

  lemma {:induction false} ReleaseBackRemoves(s: State, t: State, names: seq<string>, holder: string, reentrant: bool, env: Env)
    requires HoldsExtra(s, t, Members(names), holder, reentrant)
    requires Distinct(names) && forall n | n in names :: Rows(t.queue, n) == []
    ensures var u := ReleaseBack(t, names, holder, env);
            HoldsExtra(s, u, {}, holder, reentrant) && SameQueue(t, u)
    decreases |names|
  {
    hide HoldsExtra, Release, Rows;
    if names == [] {
      assert Members(names) == {};
    } else {
      var last, rest := names[|names| - 1], names[..|names| - 1];
      assert names == rest + [last];
      ReleaseRemoves(s, t, Members(names), holder, reentrant, last, env);
      assert Members(names) - {last} == Members(rest);
      ReleaseBackRemoves(s, Release(t, last, holder, env), rest, holder, reentrant, env);
    }
  }

  lemma AddsNothing(s: State, holder: string, reentrant: bool)
    ensures HoldsExtra(s, s, {}, holder, reentrant) && SameQueue(s, s)
  {
  }

  lemma AllTakeable(s: State, names: seq<string>)
    requires Inv(s) && Distinct(names) && forall n | n in names :: !IsHeld(s, n)
    ensures Takeable(s, names)
  {
    forall n | n in names ensures !IsHeld(s, n) && Bare(s, n) && Rows(s.queue, n) == [] {
      FreeIsBare(s, n);
    }
  }

  /** A batch takes every name, freshly, or changes nothing about holders, counts, active
      leases, timers and queues; and it takes them exactly if none is held and the guards
      allow them all. */
  lemma BatchAtomic(s: State, names: seq<string>, holder: string, leaseSec: int, reentrant: bool, env: Env)
    requires Inv(s) && Distinct(names)
    ensures var (t, r) := BatchOf(s, names, holder, leaseSec, reentrant, env);
            && SameQueue(s, t)
            && HoldsExtra(s, t, if r == BatchAcquired then Members(names) else {}, holder, reentrant)
            && (r == BatchAcquired <==> forall n | n in names :: !IsHeld(s, n) && Allowed(n, holder, leaseSec, env))
            && (r.BatchHeldBy? <==> exists n :: n in names && IsHeld(s, n))
            && (r.BatchHeldBy? ==> IsHeld(s, r.lock) && s.locks[r.lock].holder == r.holder)
  {
    AddsNothing(s, holder, reentrant);
    hide Inv, HoldsExtra, TakeEach, ReleaseBack, NoQueue, Takeable, Allowed;
    var i := FirstHeld(s, names);
    if i < |names| {
      assert names[i] in names;
    } else {
      BatchOfFree(s, names, holder, leaseSec, reentrant, env);
    }
  }

  lemma BatchOfFree(s: State, names: seq<string>, holder: string, leaseSec: int, reentrant: bool, env: Env)
    requires Inv(s) && Distinct(names) && FirstHeld(s, names) == |names|
    ensures var (t, r) := BatchOf(s, names, holder, leaseSec, reentrant, env);
            && SameQueue(s, t) && !r.BatchHeldBy?
            && HoldsExtra(s, t, if r == BatchAcquired then Members(names) else {}, holder, reentrant)
            && (r == BatchAcquired <==> forall n | n in names :: Allowed(n, holder, leaseSec, env))
            && (forall n | n in names :: !IsHeld(s, n))
  {
    AddsNothing(s, holder, reentrant);
    AllTakeable(s, names);
    hide Inv, HoldsExtra, TakeEach, ReleaseBack, NoQueue, Takeable, Allowed, Rows;
    TakeEachAdds(s, s, {}, names, holder, leaseSec, reentrant, env);
    var (u, k) := TakeEach(s, names, holder, leaseSec, reentrant, env);
    assert {} + Members(names[..k]) == Members(names[..k]);
    if k < |names| {
      assert names[k] in names;
      ReleaseBackRemoves(s, u, names[..k], holder, reentrant, env);
    } else {
      assert names[..k] == names;
    }
  }

  /** A batch request names its locks in any order and with repetitions: it gets all of them afresh,
      exactly if all are free and allowed, or changes nothing. */
  lemma BatchRequestAtomic(s: State, lockNames: seq<string>, holder: string, leaseSec: int, reentrant: bool, env: Env)
    requires Inv(s)
    ensures var (t, r) := BatchOf(s, Names.SortDistinct(lockNames), holder, leaseSec, reentrant, env);
            && SameQueue(s, t)
            && HoldsExtra(s, t, if r == BatchAcquired then Members(lockNames) else {}, holder, reentrant)
            && (r == BatchAcquired <==> forall n | n in lockNames :: !IsHeld(s, n) && Allowed(n, holder, leaseSec, env))
  {
    var names := Names.SortDistinct(lockNames);
    Names.SortDistinctSorts(lockNames);
    Names.IncreasingDistinct(names);
    assert Members(names) == Members(lockNames);
    hide Inv, HoldsExtra, BatchOf, IsHeld, Allowed, Names.SortDistinct;
    BatchAtomic(s, names, holder, leaseSec, reentrant, env);
  }
}
