/** Creating a transaction over locks and tokens (internal/orchestration/manager.go): at one
    instant it gets everything it asks for, or leaves nothing but the holder's withdrawal from the
    wait queues and what the clock does. */
module Orchestration {
  import opened Graphs
  import opened LockTables
  import opened LockSpec
  import opened LockInvariants
  import opened LockBatch
  import opened TxSpec
  import opened TxLocks
  import opened TxTokens
  import LockManager
  import QuotaManager
  import QuotaSpec
  import Names

  /** All or nothing. The transaction commits exactly when the names are distinct, every lock is free
      and admitted, and every caller has room for all the tokens asked of it. Then it holds all locks
      afresh and all tokens are charged, and no queue has changed. Otherwise the locks, counts, active
      leases and timers are as before, every queue has lost the holder's entries and nothing else, and
      the quotas are as the clock alone would have left them. */
  lemma CreateTxAtomic(s: State, q: QuotaSpec.Quota, holder: string, items: seq<LockItem>, tokens: seq<TokenItem>,
                       envs: nat -> Env, undo: Env, now: int, decay: QuotaSpec.Decay)
    requires Inv(s) && holder != "" && NamesValid(items) && UsedNonNegative(q)
    ensures var r := CreateTx(s, q, holder, items, tokens, envs, undo, now, decay);
            && (r.committed <==> AllAdmitted(s, {}, items, holder, envs, 0) && TokensFit(q, [], tokens, now, decay))
            && (r.committed ==>
                  && HoldsExtra(s, r.state, Members(NamesOf(items)), holder, false) && SameQueue(s, r.state)
                  && ChargedFor(q, r.quota, tokens, Callers(tokens), now, decay))
            && (!r.committed ==> Undone(s, r.state, holder) && OnlyClock(q, r.quota, now, decay))
  {
    LocksOutcome(s, items, holder, envs);
    LocksUndone(s, items, holder, envs, undo);
    TokensOutcome(q, tokens, now, decay);
    TokensUndone(q, tokens, now, decay);
    ClockAlone(q, now, decay);
    hide Inv, HoldsExtra, TakeLocks, TakeTokens, ReleaseBack, ReturnBack, CancelWaits, AllAdmitted, TokensFit, ChargedFor,
         Undone, OnlyClock, SameQueue, UsedNonNegative, Callers, Members, NamesValid;
    assert items[..|items|] == items;
  }

  lemma LocksOutcome(s: State, items: seq<LockItem>, holder: string, envs: nat -> Env)
    requires Inv(s) && holder != "" && NamesValid(items)
    ensures var (u, n) := TakeLocks(s, items, holder, envs, 0);
            && n <= |items|
            && (n == |items| <==> AllAdmitted(s, {}, items, holder, envs, 0))
            && (n == |items| ==> HoldsExtra(s, u, Members(NamesOf(items)), holder, false) && SameQueue(s, u))
  {
    AddsNothing(s, holder, false);
    TakeLocksAdds(s, s, {}, items, holder, envs, 0);
    hide Inv, HoldsExtra, TakeLocks, AllAdmitted, SameOthers, QueueOk, Rows, SameQueue;
    assert items[..|items|] == items;
    assert {} + Members(NamesOf(items)) == Members(NamesOf(items));
  }

  lemma TokensOutcome(q: QuotaSpec.Quota, tokens: seq<TokenItem>, now: int, decay: QuotaSpec.Decay)
    ensures var (u, k) := TakeTokens(q, tokens, now, decay);
            && k <= |tokens|
            && (k == |tokens| <==> TokensFit(q, [], tokens, now, decay))
            && (k == |tokens| ==> ChargedFor(q, u, tokens, Callers(tokens), now, decay))
  {
    NothingCharged(q, now, decay);
    TakeTokensCharges(q, q, [], tokens, now, decay);
    hide TakeTokens, TokensFit, ChargedFor, Callers;
    assert [] + tokens == tokens;
  }

  lemma ClockAlone(q: QuotaSpec.Quota, now: int, decay: QuotaSpec.Decay)
    ensures OnlyClock(q, q, now, decay)
  {
    NothingCharged(q, now, decay);
    ClockOnly(q, q, {}, now, decay);
  }

  // ---------------------------------------------------------------- sorting

  function InsertItem(x: LockItem, s: seq<LockItem>): seq<LockItem> {
    if s == [] || Names.Less(x.name, s[0].name) then [x] + s else [s[0]] + InsertItem(x, s[1..])
  }

  /** The requests by lock name, as `sort.Slice` leaves them. */
  function SortByName(s: seq<LockItem>): seq<LockItem> {
    if s == [] then [] else InsertItem(s[0], SortByName(s[1..]))
  }

  ghost predicate Ascending(s: seq<LockItem>) {
    forall i, j | 0 <= i < j < |s| :: !Names.Less(s[j].name, s[i].name)
  }

  lemma {:induction false} InsertItemSorts(x: LockItem, s: seq<LockItem>)
    requires Ascending(s)
    ensures Ascending(InsertItem(x, s)) && multiset(InsertItem(x, s)) == multiset(s) + multiset{x}
  {
    hide Names.Less;
    if s == [] {
    } else if Names.Less(x.name, s[0].name) {
      forall j | 0 <= j < |s| ensures !Names.Less(s[j].name, x.name) {
        if Names.Less(s[j].name, x.name) {
          Names.LessTransitive(s[j].name, x.name, s[0].name);
          Names.LessTotal(s[0].name, s[j].name);
        }
      }
    } else {
      InsertItemSorts(x, s[1..]);
      var rest := InsertItem(x, s[1..]);
      assert s == [s[0]] + s[1..];
      forall j | 0 <= j < |rest| ensures !Names.Less(rest[j].name, s[0].name) {
        assert rest[j] in multiset(rest);
        assert rest[j] == x || rest[j] in multiset(s[1..]);
      }
    }
  }

  lemma {:induction false} SortByNameSorts(s: seq<LockItem>)
    ensures Ascending(SortByName(s)) && multiset(SortByName(s)) == multiset(s)
  {
    hide Ascending, InsertItem;
    if s == [] {
      EmptyAscending();
    } else {
      SortByNameSorts(s[1..]);
      InsertItemSorts(s[0], SortByName(s[1..]));
      assert s == [s[0]] + s[1..];
    }
  }

  lemma EmptyAscending()
    ensures Ascending([])
  {
  }

  // ---------------------------------------------------------------- in place

  class TxManager {
    const locks: LockManager.Manager
    const quotas: QuotaManager.Manager

    constructor (locks: LockManager.Manager, quotas: QuotaManager.Manager)
      ensures this.locks == locks && this.quotas == quotas
    {
      this.locks, this.quotas := locks, quotas;
    }

    /** The loop over the locks, up to the first that is not acquired. */
    method TakeAllLocks(items: seq<LockItem>, holder: string, envs: nat -> Env) returns (n: nat)
      requires Inv(locks.View()) && holder != "" && NamesValid(items)
      modifies locks, locks.issuer
      ensures (locks.View(), n) == TakeLocks(old(locks.View()), items, holder, envs, 0)
      ensures n <= |items| && Inv(locks.View())
    {
      hide Inv, Acquire, AcquireOutcome, TakeLocks;
      n := 0;
      assert items[0..] == items;
      while n < |items|
        invariant 0 <= n <= |items| && Inv(locks.View())
        invariant TakeLocks(old(locks.View()), items, holder, envs, 0)
                  == After(n, TakeLocks(locks.View(), items[n..], holder, envs, n))
      {
        LockStep(locks.View(), items[n..], holder, envs, n);
        AcquireKeeps(locks.View(), items[n].name, holder, items[n].leaseSec, false, envs(n));
        assert items[n..][1..] == items[n + 1..];
        var outcome, cycle := locks.AcquireLock(items[n].name, holder, items[n].leaseSec, false, envs(n));
        if outcome != Acquired {
          return;
        }
        n := n + 1;
      }
      assert items[n..] == [];
      LockEnd(locks.View(), holder, envs, n);
    }

    method TakeAllTokens(items: seq<TokenItem>, now: int) returns (k: nat)
      modifies quotas
      ensures (quotas.View(), k) == TakeTokens(old(quotas.View()), items, now, quotas.decay)
      ensures k <= |items|
    {
      hide QuotaSpec.Request, QuotaSpec.RequestAnswer, TakeTokens;
      k := 0;
      assert items[0..] == items;
      while k < |items|
        invariant 0 <= k <= |items|
        invariant TakeTokens(old(quotas.View()), items, now, quotas.decay)
                  == After(k, TakeTokens(quotas.View(), items[k..], now, quotas.decay))
      {
        TokenStep(quotas.View(), items[k..], now, quotas.decay);
        assert items[k..][1..] == items[k + 1..];
        var answer := quotas.RequestTokens(items[k].caller, items[k].tokens, false, 0, now);
        if answer != QuotaSpec.Allowed {
          return;
        }
        k := k + 1;
      }
      assert items[k..] == [];
      TokenEnd(quotas.View(), now, quotas.decay);
    }

    method ReturnAllTokens(items: seq<TokenItem>, now: int)
      modifies quotas
      ensures quotas.View() == ReturnBack(old(quotas.View()), items, now, quotas.decay)
    {
      hide QuotaSpec.ReturnTokens;
      var i := |items|;
      assert items[..i] == items;
      while i > 0
        invariant 0 <= i <= |items|
        invariant ReturnBack(old(quotas.View()), items, now, quotas.decay) == ReturnBack(quotas.View(), items[..i], now, quotas.decay)
      {
        i := i - 1;
        assert items[..i + 1][..i] == items[..i];
        var ok := quotas.ReturnTokens(items[i].caller, items[i].tokens, now);
      }
    }

    method ReleaseAllLocks(names: seq<string>, holder: string, undo: Env)
      requires QueueOk(locks.View())
      modifies locks, locks.issuer
      ensures locks.View() == ReleaseBack(old(locks.View()), names, holder, undo)
    {
      hide Release, QueueOk;
      var i := |names|;
      assert names[..i] == names;
      while i > 0
        invariant 0 <= i <= |names| && QueueOk(locks.View())
        invariant ReleaseBack(old(locks.View()), names, holder, undo) == ReleaseBack(locks.View(), names[..i], holder, undo)
      {
        i := i - 1;
        assert names[..i + 1][..i] == names[..i];
        var outcome := locks.ReleaseLock(names[i], holder, undo);
      }
    }

    /** Tries to take all the locks in name order and then all the tokens; on the first failure gives
        back the tokens and the locks, last first, and leaves every wait queue. */
    method CreateTx(holder: string, lockSpecs: seq<LockItem>, tokenSpecs: seq<TokenItem>, envs: nat -> Env, undo: Env, now: int)
      returns (committed: bool)
      requires Inv(locks.View()) && holder != "" && NamesValid(lockSpecs)
      modifies locks, locks.issuer, quotas
      ensures var r := TxSpec.CreateTx(old(locks.View()), old(quotas.View()), holder, SortByName(lockSpecs), tokenSpecs, envs,
                                       undo, now, quotas.decay);
              locks.View() == r.state && quotas.View() == r.quota && committed == r.committed
      ensures Inv(locks.View())
    {
      hide Inv, TakeLocks, TakeTokens, ReleaseBack, ReturnBack, SortByName, Without, WaitsOf, QueueOk;
      var sorted := SortByName(lockSpecs);
      SortedValid(lockSpecs);
      var n := TakeAllLocks(sorted, holder, envs);
      var failed := n < |sorted|;
      var k := 0;
      if !failed {
        k := TakeAllTokens(tokenSpecs, now);
        failed := k < |tokenSpecs|;
      }
      if failed {
        InvQueue(locks.View());
        assert n == |sorted| ==> sorted[..n] == sorted;
        if k > 0 {
          ReturnAllTokens(tokenSpecs[..k], now);
        } else {
          ReturnNone(quotas.View(), now, quotas.decay);
        }
        ReleaseBackKeeps(locks.View(), NamesOf(sorted[..n]), holder, undo);
        ReleaseAllLocks(NamesOf(sorted[..n]), holder, undo);
        ShrinkKeeps(locks.View(), WaitsOf(locks.View().queue, holder));
        var cancelled := locks.CancelWaitForHolder(holder);
      }
      committed := !failed;
    }
  }

  function After<S>(n: nat, r: (S, nat)): (S, nat) {
    (r.0, n + r.1)
  }

  lemma LockStep(s: State, items: seq<LockItem>, holder: string, envs: nat -> Env, from: nat)
    requires items != []
    ensures var t := Acquire(s, items[0].name, holder, items[0].leaseSec, false, envs(from));
            TakeLocks(s, items, holder, envs, from)
            == if AcquireOutcome(s, items[0].name, holder, items[0].leaseSec, false, envs(from)) != Acquired then (t, 0)
               else After(1, TakeLocks(t, items[1..], holder, envs, from + 1))
  {
    hide Acquire, AcquireOutcome;
  }

  lemma LockEnd(s: State, holder: string, envs: nat -> Env, from: nat)
    ensures TakeLocks(s, [], holder, envs, from) == (s, 0)
  {
  }

  lemma TokenStep(q: QuotaSpec.Quota, items: seq<TokenItem>, now: int, decay: QuotaSpec.Decay)
    requires items != []
    ensures var t := QuotaSpec.Request(q, items[0].caller, items[0].tokens, false, 0, now, decay);
            TakeTokens(q, items, now, decay)
            == if QuotaSpec.RequestAnswer(q, items[0].caller, items[0].tokens, false, now, decay) != QuotaSpec.Allowed then (t, 0)
               else After(1, TakeTokens(t, items[1..], now, decay))
  {
    hide QuotaSpec.Request, QuotaSpec.RequestAnswer;
  }

  lemma TokenEnd(q: QuotaSpec.Quota, now: int, decay: QuotaSpec.Decay)
    ensures TakeTokens(q, [], now, decay) == (q, 0)
  {
  }

  lemma ReturnNone(q: QuotaSpec.Quota, now: int, decay: QuotaSpec.Decay)
    ensures ReturnBack(q, [], now, decay) == q
  {
  }

  lemma SortedValid(s: seq<LockItem>)
    requires NamesValid(s)
    ensures NamesValid(SortByName(s))
  {
    SortByNameSorts(s);
    hide SortByName, Ascending;
    var sorted := SortByName(s);
    forall i | 0 <= i < |sorted| ensures sorted[i].name != "" {
      assert sorted[i] in multiset(sorted);
      assert sorted[i] in multiset(s);
    }
  }
}
