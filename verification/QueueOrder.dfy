/** First come, first served: what the wait queue of a lock keeps of the order in which
    its entries arrived, over whole runs. */
module QueueOrder {
  import opened Fencing
  import opened LockTables
  import opened LockSpec
  import opened LockInvariants
  import opened LockRuns

  /** Holder `a` waits in front of holder `b`. */
  ghost predicate Ahead(q: seq<WaitItem>, a: string, b: string) {
    exists i, j :: 0 <= i < j < |q| && q[i].holder == a && q[j].holder == b
  }

  ghost predicate AheadFor(s: State, name: string, a: string, b: string) {
    Ahead(Rows(s.queue, name), a, b)
  }

  predicate Waiting(s: State, name: string, holder: string) {
    InQueue(Rows(s.queue, name), holder)
  }

  /** The rows without their ids, which a reordering renews. */
  function Entries(q: seq<WaitItem>): (r: seq<WaitItem>)
    ensures |r| == |q|
    ensures forall i | 0 <= i < |q| :: r[i] == q[i].(id := 0)
  {
    seq(|q|, i requires 0 <= i < |q| => q[i].(id := 0))
  }

  function Entry(name: string, holder: string, leaseSec: int, reentrant: bool, env: Env): WaitItem {
    WaitItem(0, name, holder, reentrant, leaseSec, env.now, env.now + WAIT_TIMEOUT)
  }

  // ---------------------------------------------------------------- rows only leave

  /** Some rows have been deleted and nothing else happened to the queue. */
  ghost predicate OnlyLeft(s: State, t: State) {
    exists ids :: t.queue == Without(s.queue, ids)
  }

  lemma OnlyLeftRefl(s: State, t: State)
    requires t.queue == s.queue
    ensures OnlyLeft(s, t)
  {
    WithoutNone(s.queue, {});
  }

  lemma OnlyLeftTrans(s: State, t: State, u: State)
    requires OnlyLeft(s, t) && OnlyLeft(t, u)
    ensures OnlyLeft(s, u)
  {
    var a :| t.queue == Without(s.queue, a);
    var b :| u.queue == Without(t.queue, b);
    WithoutTwice(s.queue, a, b);
  }

  lemma {:induction false} WithoutAhead(q: seq<WaitItem>, ids: set<nat>, a: string, b: string)
    requires HoldersDistinct(q) && Ahead(q, a, b)
    requires InQueue(Without(q, ids), a) && InQueue(Without(q, ids), b)
    ensures Ahead(Without(q, ids), a, b)
  {
    hide Without, HoldersDistinct, InQueue;
    var i, j :| 0 <= i < j < |q| && q[i].holder == a && q[j].holder == b;
    StillThere(q, i, ids);
    StillThere(q, j, ids);
    assert q == q[..j] + q[j..];
    WithoutAppend(q[..j], q[j..], ids);
    var front, back := Without(q[..j], ids), Without(q[j..], ids);
    assert q[i] in front by {
      assert q[i] == q[..j][i];
      WithoutMember(q[..j], ids);
    }
    assert q[j] in back by {
      assert q[j] == q[j..][0];
      WithoutMember(q[j..], ids);
    }
    var k :| 0 <= k < |front| && front[k] == q[i];
    var l :| 0 <= l < |back| && back[l] == q[j];
    assert Without(q, ids)[k].holder == a && Without(q, ids)[|front| + l].holder == b;
  }

  /** The row of a holder that is still in the queue is the row it had. */
  lemma StillThere(q: seq<WaitItem>, i: nat, ids: set<nat>)
    requires HoldersDistinct(q) && i < |q| && InQueue(Without(q, ids), q[i].holder)
    ensures q[i] in Without(q, ids) && q[i].id !in ids
  {
    WithoutMember(q, ids);
    var r :| r in Without(q, ids) && r.holder == q[i].holder;
    var j :| 0 <= j < |q| && q[j] == r;
  }

  lemma OnlyLeftKeepsOrder(s: State, t: State, name: string, a: string, b: string)
    requires QueueOk(s) && OnlyLeft(s, t)
    requires AheadFor(s, name, a, b) && Waiting(t, name, a) && Waiting(t, name, b)
    ensures AheadFor(t, name, a, b)
  {
    var ids :| t.queue == Without(s.queue, ids);
    RowsWithout(s.queue, ids, name);
    QueueDistinct(s, name);
    WithoutAhead(Rows(s.queue, name), ids, a, b);
  }

  lemma GrantOnlyLeft(s: State, name: string, env: Env)
    ensures OnlyLeft(s, GrantNext(s, name, env))
  {
    hide Without, SkipCount, Rows;
    var q := Rows(s.queue, name);
    var k := SkipCount(q, env);
    assert GrantNext(s, name, env).queue == Without(s.queue, if k == |q| then Ids(q) else Ids(q[..k + 1]));
  }

  lemma ReleaseOnlyLeft(s: State, name: string, holder: string, env: Env)
    ensures OnlyLeft(s, Release(s, name, holder, env))
  {
    hide GrantNext, OnlyLeft, Deactivate;
    if Releasing(s, name, holder) == Released {
      GrantOnlyLeft(Vacate(s, name), name, env);
      OnlyLeftRefl(s, Vacate(s, name));
      OnlyLeftTrans(s, Vacate(s, name), Release(s, name, holder, env));
    } else {
      OnlyLeftRefl(s, Release(s, name, holder, env));
    }
  }

  lemma ExpireOnlyLeft(s: State, name: string, env: Env)
    ensures OnlyLeft(s, Expire(s, name, env))
  {
    hide GrantNext, OnlyLeft, Deactivate;
    if IsHeld(s, name) {
      GrantOnlyLeft(Vacate(s, name), name, env);
      OnlyLeftRefl(s, Vacate(s, name));
      OnlyLeftTrans(s, Vacate(s, name), Expire(s, name, env));
    } else {
      OnlyLeftRefl(s, Expire(s, name, env));
    }
  }

  lemma {:induction false} TakeEachSameQueue(s: State, names: seq<string>, holder: string, leaseSec: int, reentrant: bool, env: Env)
    ensures TakeEach(s, names, holder, leaseSec, reentrant, env).0.queue == s.queue
    ensures TakeEach(s, names, holder, leaseSec, reentrant, env).0.nextId == s.nextId
    decreases |names|
  {
    if names != [] && !Fails(NoQueue(s, names[0], holder, leaseSec, reentrant, env)) {
      TakeEachSameQueue(AcquireNoQueue(s, names[0], holder, leaseSec, reentrant, env),
                        names[1..], holder, leaseSec, reentrant, env);
    }
  }

  lemma {:induction false} ReleaseBackOnlyLeft(s: State, names: seq<string>, holder: string, env: Env)
    ensures OnlyLeft(s, ReleaseBack(s, names, holder, env))
    decreases |names|
  {
    hide OnlyLeft, Release;
    if names == [] {
      OnlyLeftRefl(s, s);
    } else {
      var t := Release(s, names[|names| - 1], holder, env);
      ReleaseOnlyLeft(s, names[|names| - 1], holder, env);
      ReleaseBackOnlyLeft(t, names[..|names| - 1], holder, env);
      OnlyLeftTrans(s, t, ReleaseBack(t, names[..|names| - 1], holder, env));
    }
  }

  lemma BatchOnlyLeft(s: State, names: seq<string>, holder: string, leaseSec: int, reentrant: bool, env: Env)
    ensures OnlyLeft(s, BatchOf(s, names, holder, leaseSec, reentrant, env).0)
  {
    hide OnlyLeft, TakeEach, ReleaseBack, NoQueue;
    var t := TakeEach(s, names, holder, leaseSec, reentrant, env);
    TakeEachSameQueue(s, names, holder, leaseSec, reentrant, env);
    OnlyLeftRefl(s, t.0);
    OnlyLeftRefl(s, s);
    if t.1 < |names| {
      ReleaseBackOnlyLeft(t.0, names[..t.1], holder, env);
      OnlyLeftTrans(s, t.0, ReleaseBack(t.0, names[..t.1], holder, env));
    }
  }

  // ---------------------------------------------------------------- arrivals

  lemma {:induction false} OthersAll(q: seq<WaitItem>, holder: string)
    requires forall r | r in q :: r.holder != holder
    ensures OfHolder(q, holder) == [] && NotOfHolder(q, holder) == q
  {
    if q != [] {
      assert q[0] in q;
      OthersAll(q[1..], holder);
      assert q == [q[0]] + q[1..];
    }
  }

  lemma {:induction false} SplitAppend(q: seq<WaitItem>, r: WaitItem)
    requires forall x | x in q :: x.holder != r.holder
    ensures OfHolder(q + [r], r.holder) == [r] && NotOfHolder(q + [r], r.holder) == q
  {
    if q != [] {
      assert q[0] in q;
      assert (q + [r])[1..] == q[1..] + [r];
      SplitAppend(q[1..], r);
      assert q == [q[0]] + q[1..];
    }
  }

  /** A new entry goes to the end of its queue, or to the front if its holder has priority;
      the others keep their places, and no other queue changes. */
  lemma QueueUpRows(s: State, name: string, holder: string, leaseSec: int, reentrant: bool, env: Env)
    requires QueueOk(s) && !InQueue(Rows(s.queue, name), holder)
    ensures var t := QueueUp(s, name, holder, leaseSec, reentrant, env);
            var item := Entry(name, holder, leaseSec, reentrant, env);
            && Entries(Rows(t.queue, name)) == (if env.isGold(holder) then [item] + Entries(Rows(s.queue, name))
                                                else Entries(Rows(s.queue, name)) + [item])
            && (forall n | n != name :: Rows(t.queue, n) == Rows(s.queue, n))
  {
    hide Rows, Without, OfHolder, NotOfHolder, Renumber, QueueOk, Enqueue, Ids;
    var q := Rows(s.queue, name);
    var item := Entry(name, holder, leaseSec, reentrant, env);
    var s' := Enqueue(s, item);
    var row := item.(id := s.nextId);
    EnqueueRows(s, item);
    SplitAppend(q, row);
    if env.isGold(holder) && q != [] {
      assert Rows(s'.queue, name) == q + [row];
      RowsCarryName(s, name);
      EnqueueIds(s, item);
      ReinsertRows(s', name, [row] + q);
    } else {
      AppendedEntry(q, row);
    }
  }

  lemma RowsCarryName(s: State, name: string)
    ensures forall r | r in Rows(s.queue, name) :: r.lockName == name
  {
    RowsMember(s.queue, name);
  }

  lemma EnqueueIds(s: State, item: WaitItem)
    requires QueueOk(s)
    ensures IdsOk(Enqueue(s, item).queue, Enqueue(s, item).nextId)
  {
  }

  lemma AppendedEntry(q: seq<WaitItem>, row: WaitItem)
    ensures Entries(q + [row]) == Entries(q) + [row.(id := 0)]
    ensures q == [] ==> Entries(q + [row]) == [row.(id := 0)] + Entries(q)
  {
  }

  lemma EnqueueRows(s: State, item: WaitItem)
    ensures Rows(Enqueue(s, item).queue, item.lockName) == Rows(s.queue, item.lockName) + [item.(id := s.nextId)]
    ensures forall n | n != item.lockName :: Rows(Enqueue(s, item).queue, n) == Rows(s.queue, n)
  {
    forall n ensures Rows(Enqueue(s, item).queue, n)
                     == Rows(s.queue, n) + if n == item.lockName then [item.(id := s.nextId)] else []
    {
      RowsAppend(s.queue, [item.(id := s.nextId)], n);
    }
  }

  lemma ReinsertRows(s: State, name: string, both: seq<WaitItem>)
    requires IdsOk(s.queue, s.nextId)
    requires forall r | r in both :: r.lockName == name
    ensures var table := Without(s.queue, Ids(Rows(s.queue, name))) + Renumber(both, s.nextId);
            && Rows(table, name) == Renumber(both, s.nextId)
            && (forall n | n != name :: Rows(table, n) == Rows(s.queue, n))
  {
    var q := Rows(s.queue, name);
    var kept := Without(s.queue, Ids(q));
    var renewed := Renumber(both, s.nextId);
    RowsMember(s.queue, name);
    forall r | r in renewed ensures r.lockName == name {
      var i :| 0 <= i < |renewed| && renewed[i] == r;
      assert both[i] in both;
    }
    RowsAppend(kept, renewed, name);
    RowsSame(renewed, name, name);
    RowsWithout(s.queue, Ids(q), name);
    WithoutAll(q, Ids(q));
    forall n | n != name ensures Rows(kept + renewed, n) == Rows(s.queue, n) {
      RowsAppend(kept, renewed, n);
      RowsSame(renewed, name, n);
      WithoutOther(s.queue, s.nextId, q, name, n);
    }
  }

  lemma EntriesAhead(q: seq<WaitItem>, p: seq<WaitItem>, item: WaitItem, a: string, b: string)
    requires Entries(p) == Entries(q) + [item] || Entries(p) == [item] + Entries(q)
    requires Ahead(q, a, b)
    ensures Ahead(p, a, b)
  {
    var i, j :| 0 <= i < j < |q| && q[i].holder == a && q[j].holder == b;
    var d := if Entries(p) == Entries(q) + [item] then 0 else 1;
    assert Entries(p)[i + d].holder == a && Entries(p)[j + d].holder == b;
    assert |Entries(p)| == |p|;
    assert p[i + d].holder == a && p[j + d].holder == b;
  }

  lemma AcquireKeepsOrder(s: State, name: string, holder: string, leaseSec: int, reentrant: bool, env: Env,
                          n: string, a: string, b: string)
    requires QueueOk(s) && AheadFor(s, n, a, b)
    ensures AheadFor(Acquire(s, name, holder, leaseSec, reentrant, env), n, a, b)
  {
    hide SeesCycle, QueueUp, Rows, Ahead, Without;
    if AcquireOutcome(s, name, holder, leaseSec, reentrant, env).Queued? {
      QueueUpRows(s, name, holder, leaseSec, reentrant, env);
      if n == name {
        EntriesAhead(Rows(s.queue, name), Rows(QueueUp(s, name, holder, leaseSec, reentrant, env).queue, name),
                     Entry(name, holder, leaseSec, reentrant, env), a, b);
      }
    }
  }

  // ---------------------------------------------------------------- over runs

  /** No operation makes two waiters of a lock change places. */
  lemma StepKeepsOrder(s: State, op: LockOp, env: Env, name: string, a: string, b: string)
    requires Inv(s) && AheadFor(s, name, a, b)
    requires Waiting(Step(s, op, env), name, a) && Waiting(Step(s, op, env), name, b)
    ensures AheadFor(Step(s, op, env), name, a, b)
  {
    InvStore(s);
    var t := Step(s, op, env);
    hide Inv, QueueOk, Acquire, BatchOf, Release, Expire, OnlyLeft, AheadFor, Waiting, Rows, Without;
    if op.AcquireOp? {
      AcquireKeepsOrder(s, op.name, op.holder, op.leaseSec, op.reentrant, env, name, a, b);
    } else {
      match op {
        case BatchOp(names, holder, leaseSec, reentrant) => BatchOnlyLeft(s, names, holder, leaseSec, reentrant, env);
        case ReleaseOp(n, holder) => ReleaseOnlyLeft(s, n, holder, env);
        case ExpireOp(n) => ExpireOnlyLeft(s, n, env);
        case TimeoutsOp => DroppedOnlyLeft(s, TimedOut(s.queue, env.now));
        case CancelOp(holder) => DroppedOnlyLeft(s, WaitsOf(s.queue, holder));
        case _ => OnlyLeftRefl(s, t);
      }
      OnlyLeftKeepsOrder(s, t, name, a, b);
    }
  }

  lemma DroppedOnlyLeft(s: State, ids: set<nat>)
    ensures OnlyLeft(s, s.(queue := Without(s.queue, ids)))
  {
  }

  ghost predicate KeepWaiting(s: State, run: seq<Event>, name: string, a: string, b: string)
    decreases |run|
  {
    && Waiting(s, name, a) && Waiting(s, name, b)
    && (run != [] ==> KeepWaiting(Step(s, run[0].op, run[0].env), run[1..], name, a, b))
  }

  /** As long as two holders both wait for a lock, the one in front stays in front. */
  lemma {:induction false} RunKeepsOrder(s: State, run: seq<Event>, name: string, a: string, b: string)
    requires Inv(s) && AllProper(run) && AheadFor(s, name, a, b) && KeepWaiting(s, run, name, a, b)
    ensures AheadFor(RunOf(s, run), name, a, b)
    decreases |run|
  {
    hide Inv, Step, AheadFor, Waiting;
    if run != [] {
      assert run[0] in run;
      StepKeepsInv(s, run[0].op, run[0].env);
      StepKeepsOrder(s, run[0].op, run[0].env, name, a, b);
      RunKeepsOrder(Step(s, run[0].op, run[0].env), run[1..], name, a, b);
    }
  }

  /** A grant removes exactly the maximal prefix of timed-out or over-budget entries and the
      entry granted, and leaves exactly the rest of that queue and all other queues. */
  lemma GrantExact(s: State, name: string, env: Env)
    requires QueueOk(s) && !IsHeld(s, name)
    ensures var q := Rows(s.queue, name);
            var k := SkipCount(q, env);
            var t := GrantNext(s, name, env);
            && (forall i | 0 <= i < k :: q[i].timeoutAt < env.now || !env.withinBudget(q[i].holder, name, q[i].leaseSec))
            && Rows(t.queue, name) == (if k < |q| then q[k + 1..] else [])
            && (forall n | n != name :: Rows(t.queue, n) == Rows(s.queue, n))
            && (IsHeld(t, name) <==> k < |q|)
            && (k < |q| ==> q[k].timeoutAt >= env.now && env.withinBudget(q[k].holder, name, q[k].leaseSec)
                            && t.locks[name] == Lock(Held, q[k].holder, q[k].reentrant, 1))
  {
    hide Rows, Without, QueueOk, Skipped, AfterIssue;
    var q := Rows(s.queue, name);
    var k := SkipCount(q, env);
    var n := if k == |q| then k else k + 1;
    DropPrefix(s, name, n);
    RowsNamed(s.queue, name);
    assert k == |q| ==> q[..n] == q && q[n..] == [];
  }

  /** Nobody is granted a lock over the head of a waiter that stays in the queue. */
  lemma NoOvertaking(s: State, name: string, env: Env, a: string, b: string)
    requires QueueOk(s) && !IsHeld(s, name) && AheadFor(s, name, a, b)
    requires IsHeld(GrantNext(s, name, env), name) && GrantNext(s, name, env).locks[name].holder == b
    ensures !Waiting(GrantNext(s, name, env), name, a)
  {
    GrantExact(s, name, env);
    QueueDistinct(s, name);
    hide Rows, GrantNext, QueueOk, SkipCount;
    var q := Rows(s.queue, name);
    var k := SkipCount(q, env);
    var i, j :| 0 <= i < j < |q| && q[i].holder == a && q[j].holder == b;
    assert j == k;
    forall r | r in q[k + 1..] ensures r.holder != a {
    }
  }
}
