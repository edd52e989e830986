/** Deadlock detection looks at a request only when it queues. A grant turns the waits that
    stay behind towards the new holder, and nothing looks again: when a holder may queue for
    two locks at once, a run ends with two holders waiting for each other. */
module MissedDeadlock {
  import opened Graphs
  import opened Fencing
  import opened LockTables
  import opened LockSpec
  import opened LockInvariants
  import opened LockRuns

  /** A moment at which every guard says yes and nobody has priority. */
  function Permissive(now: int): Env {
    Env(now, (l, h, sec) => true, (h, l, sec) => true, h => true, h => false)
  }

  const START := Initial(Store(map[], map[]))

  const A := "a"
  const B := "b"
  const C := "c"
  const ONE := "lock-1"
  const TWO := "lock-2"

  function Get(name: string, holder: string): Event {
    Event(AcquireOp(name, holder, 10, false), Permissive(0))
  }

  /** The event is a request that is refused as a deadlock. */
  ghost predicate RefusedAt(s: State, e: Event) {
    match e.op
    case AcquireOp(name, holder, leaseSec, reentrant) => AcquireOutcome(s, name, holder, leaseSec, reentrant, e.env) == Deadlock
    case _ => false
  }

  ghost predicate NoneRefused(s: State, run: seq<Event>)
    decreases |run|
  {
    run == [] || (!RefusedAt(s, run[0]) && NoneRefused(Step(s, run[0].op, run[0].env), run[1..]))
  }

  /** The two locks are held, and these waits (lock, holder) are queued in this order. */
  ghost predicate Scene(s: State, first: string, second: string, waits: seq<(string, string)>) {
    && ONE in s.locks && s.locks[ONE] == Lock(Held, first, false, 1)
    && TWO in s.locks && s.locks[TWO] == Lock(Held, second, false, 1)
    && s.accelerated == map[]
    && |s.queue| == |waits|
    && (forall i | 0 <= i < |waits| ::
          s.queue[i].lockName == waits[i].0 && s.queue[i].holder == waits[i].1
          && s.queue[i].timeoutAt == WAIT_TIMEOUT && s.queue[i].id < s.nextId)
    && (forall i, j | 0 <= i < j < |waits| :: s.queue[i].id < s.queue[j].id)
  }

  function Owner(name: string, first: string, second: string): string {
    if name == ONE then first else second
  }

  /** No wait is for a lock its holder has. */
  ghost predicate Fair(waits: seq<(string, string)>, first: string, second: string) {
    && first != "" && second != ""
    && forall w | w in waits :: (w.0 == ONE || w.0 == TWO) && w.1 != Owner(w.0, first, second)
  }

  lemma SceneGraph(s: State, first: string, second: string, waits: seq<(string, string)>)
    requires Scene(s, first, second, waits) && Fair(waits, first, second)
    ensures WaitGraph(s) == set w | w in waits :: (w.1, Owner(w.0, first, second))
  {
    forall r | r in s.queue ensures (r.lockName, r.holder) in waits && Waits(s, r) {
      var i :| 0 <= i < |s.queue| && s.queue[i] == r;
      assert waits[i] == (r.lockName, r.holder);
    }
    forall w | w in waits ensures exists r :: r in s.queue && r.lockName == w.0 && r.holder == w.1 {
      var i :| 0 <= i < |waits| && waits[i] == w;
      assert s.queue[i] in s.queue;
    }
    assert forall r | r in s.queue :: s.locks[r.lockName].holder == Owner(r.lockName, first, second);
  }

  /** Queueing in a scene, when the new wait closes no cycle. */
  lemma SceneQueues(s: State, first: string, second: string, waits: seq<(string, string)>, name: string, holder: string)
    requires Scene(s, first, second, waits) && (name == ONE || name == TWO)
    requires Owner(name, first, second) != holder
    requires !SeesCycle(s, holder, Owner(name, first, second))
    requires (name, holder) !in waits
    ensures !RefusedAt(s, Get(name, holder))
    ensures Scene(Step(s, Get(name, holder).op, Permissive(0)), first, second, waits + [(name, holder)])
  {
    assert !InQueue(Rows(s.queue, name), holder) by {
      RowsMember(s.queue, name);
      forall r | r in Rows(s.queue, name) ensures r.holder != holder {
        var i :| 0 <= i < |s.queue| && s.queue[i] == r;
        assert waits[i] in waits;
      }
    }
    hide SeesCycle, Rows, InQueue;
    assert AcquireOutcome(s, name, holder, 10, false, Permissive(0)).Queued?;
  }

  /** One more wait that closes no cycle. */
  lemma OneMore(s: State, first: string, second: string, waits: seq<(string, string)>, name: string, holder: string)
    returns (t: State)
    requires Scene(s, first, second, waits) && Fair(waits + [(name, holder)], first, second)
    requires (name, holder) !in waits && Acyclic(WaitGraph(s))
    requires var owner := Owner(name, first, second);
             (forall n :: (owner, n) !in WaitGraph(s)) || (forall n :: (n, holder) !in WaitGraph(s))
    ensures t == Step(s, Get(name, holder).op, Get(name, holder).env) && !RefusedAt(s, Get(name, holder))
    ensures Scene(t, first, second, waits + [(name, holder)])
    ensures WaitGraph(t) == WaitGraph(s) + {(holder, Owner(name, first, second))} && Acyclic(WaitGraph(t))
  {
    var owner := Owner(name, first, second);
    assert (name, holder) in waits + [(name, holder)];
    FairPart(waits, (name, holder), first, second);
    hide Scene, Fair, WaitGraph, Acyclic, Step, SeesCycle, RefusedAt;
    SeesNone(s, holder, owner);
    SceneQueues(s, first, second, waits, name, holder);
    t := Step(s, Get(name, holder).op, Get(name, holder).env);
    SceneGraph(s, first, second, waits);
    SceneGraph(t, first, second, waits + [(name, holder)]);
    ArrowsAppend(waits, (name, holder), first, second);
  }

  lemma ArrowsAppend(waits: seq<(string, string)>, w: (string, string), first: string, second: string)
    ensures (set v | v in waits + [w] :: (v.1, Owner(v.0, first, second)))
            == (set v | v in waits :: (v.1, Owner(v.0, first, second))) + {(w.1, Owner(w.0, first, second))}
  {
    assert w in waits + [w];
  }

  lemma FairPart(waits: seq<(string, string)>, w: (string, string), first: string, second: string)
    requires Fair(waits + [w], first, second)
    ensures Fair(waits, first, second) && (w.0 == ONE || w.0 == TWO) && w.1 != Owner(w.0, first, second)
  {
    assert w in waits + [w];
  }

  /** A node without outgoing edges reaches only itself; one without incoming edges is
      reached only from itself. */
  lemma NoWayIn(g: Graph, a: string, b: string)
    requires forall n :: (n, b) !in g
    requires Reaches(g, a, b)
    ensures a == b
  {
    ReachSplit(g, a, b);
    if ReachesStrictly(g, a, b) {
      var prev := LastStep(g, a, b);
    }
  }

  lemma SeesNone(s: State, holder: string, owner: string)
    requires Acyclic(WaitGraph(s)) && owner != holder
    requires (forall n :: (owner, n) !in WaitGraph(s)) || (forall n :: (n, holder) !in WaitGraph(s))
    ensures !SeesCycle(s, holder, owner)
    ensures Acyclic(WaitGraph(s) + {(holder, owner)})
  {
    hide WaitGraph, CycleReachable, Acyclic, Reaches;
    NewEdgeCycle(WaitGraph(s), holder, owner);
    if Reaches(WaitGraph(s), owner, holder) {
      if forall n :: (owner, n) !in WaitGraph(s) {
        NoWayOut(WaitGraph(s), owner, holder);
      } else {
        NoWayIn(WaitGraph(s), owner, holder);
      }
    }
  }

  lemma TwoHeld() returns (s: State)
    ensures s == RunOf(START, [Get(ONE, A), Get(TWO, C)])
    ensures Scene(s, A, C, []) && NoneRefused(START, [Get(ONE, A), Get(TWO, C)])
  {
    var one := Get(ONE, A);
    var two := Get(TWO, C);
    var s1 := Step(START, one.op, one.env);
    s := Step(s1, two.op, two.env);
    assert s1 == Hold(START, ONE, A, false, 10, 0);
    assert s == Hold(s1, TWO, C, false, 10, 0);
    assert [one, two][1..] == [two] && [two][1..] == [];
    assert RunOf(s, []) == s;
    assert RunOf(s1, [two]) == s;
    assert NoneRefused(s1, [two]);
  }

  /** b and c queue for lock-1, and b also for lock-2, which c holds: no request closes a cycle. */
  lemma ThreeQueued(s: State) returns (t: State)
    requires Scene(s, A, C, [])
    ensures t == RunOf(s, [Get(ONE, B), Get(ONE, C), Get(TWO, B)])
    ensures NoneRefused(s, [Get(ONE, B), Get(ONE, C), Get(TWO, B)])
    ensures Scene(t, A, C, [(ONE, B), (ONE, C), (TWO, B)])
    ensures Acyclic(WaitGraph(t))
  {
    hide Scene, WaitGraph, Acyclic, Step, RefusedAt;
    EmptyScene(s);
    var s1 := OneMore(s, A, C, [], ONE, B);
    assert [] + [(ONE, B)] == [(ONE, B)];
    var s2 := OneMore(s1, A, C, [(ONE, B)], ONE, C);
    assert [(ONE, B)] + [(ONE, C)] == [(ONE, B), (ONE, C)];
    t := OneMore(s2, A, C, [(ONE, B), (ONE, C)], TWO, B);
    assert [(ONE, B), (ONE, C)] + [(TWO, B)] == [(ONE, B), (ONE, C), (TWO, B)];
    RunThree(s, Get(ONE, B), Get(ONE, C), Get(TWO, B));
  }

  lemma EmptyScene(s: State)
    requires Scene(s, A, C, [])
    ensures WaitGraph(s) == {} && Acyclic(WaitGraph(s))
  {
    SceneGraph(s, A, C, []);
    EmptyAcyclic();
  }

  lemma RunThree(s: State, e1: Event, e2: Event, e3: Event)
    ensures RunOf(s, [e1, e2, e3])
            == Step(Step(Step(s, e1.op, e1.env), e2.op, e2.env), e3.op, e3.env)
    ensures NoneRefused(s, [e1, e2, e3])
            <==> !RefusedAt(s, e1) && !RefusedAt(Step(s, e1.op, e1.env), e2)
                 && !RefusedAt(Step(Step(s, e1.op, e1.env), e2.op, e2.env), e3)
  {
    hide Step, RefusedAt;
    var s1 := Step(s, e1.op, e1.env);
    var s2 := Step(s1, e2.op, e2.env);
    assert [e1, e2, e3][1..] == [e2, e3] && [e2, e3][1..] == [e3] && [e3][1..] == [];
    assert RunOf(s2, [e3]) == Step(s2, e3.op, e3.env);
    assert RunOf(s1, [e2, e3]) == RunOf(s2, [e3]);
    assert NoneRefused(s2, [e3]) <==> !RefusedAt(s2, e3);
    assert NoneRefused(s1, [e2, e3]) <==> !RefusedAt(s1, e2) && NoneRefused(s2, [e3]);
  }

  /** When a releases lock-1, b gets it; c then waits for b, and b still waits for c. */
  lemma GrantClosesCycle(t: State)
    requires Scene(t, A, C, [(ONE, B), (ONE, C), (TWO, B)])
    ensures var u := Step(t, ReleaseOp(ONE, A), Permissive(0));
            (B, C) in WaitGraph(u) && (C, B) in WaitGraph(u) && !Acyclic(WaitGraph(u))
  {
    var env := Permissive(0);
    var u := Step(t, ReleaseOp(ONE, A), env);
    var v := Vacate(t, ONE);
    var r0, r1, r2 := t.queue[0], t.queue[1], t.queue[2];
    assert t.queue == [r0, r1, r2];
    assert Rows(t.queue, ONE) == [r0, r1] by {
      assert [r0, r1, r2][1..] == [r1, r2] && [r1, r2][1..] == [r2] && [r2][1..] == [];
      assert Rows([r2], ONE) == [];
      assert Rows([r1, r2], ONE) == [r1];
    }
    assert !Skipped(r0, env);
    assert SkipCount([r0, r1], env) == 0;
    assert [r0, r1][..1] == [r0];
    assert Ids([r0]) == {r0.id};
    var left := Without(t.queue, {r0.id});
    WithoutMember(t.queue, {r0.id});
    assert r1 in left && r2 in left;
    assert u == Hold(v.(queue := left), ONE, B, r0.reentrant, r0.leaseSec, 0);
    assert Waits(u, r1) && Waits(u, r2);
    var g := WaitGraph(u);
    assert (C, B) in g && (B, C) in g;
    ReachesReflexive(g, C);
    EdgeReaches(g, B, C, C);
    assert Reaches(g, B, C);
    ReachesEdge(g, B, C, B);
  }

  /** b waits for both locks. */
  lemma QueuedTwice(t: State)
    requires Scene(t, A, C, [(ONE, B), (ONE, C), (TWO, B)])
    ensures InQueue(Rows(t.queue, ONE), B) && InQueue(Rows(t.queue, TWO), B)
  {
    RowsMember(t.queue, ONE);
    RowsMember(t.queue, TWO);
    hide Rows;
    assert t.queue[0] in t.queue && t.queue[2] in t.queue;
    assert t.queue[0] in Rows(t.queue, ONE) && t.queue[2] in Rows(t.queue, TWO);
  }

  /** The graph is not acyclic in every reachable state: a run in which no request is refused as a
      deadlock, with one holder queued for two locks before the last step, ends in two holders waiting
      for each other. */
  lemma MissedDeadlockRun() returns (run: seq<Event>)
    ensures AllProper(run) && NoneRefused(START, run) && run != []
    ensures var before := RunOf(START, run[..|run| - 1]);
            InQueue(Rows(before.queue, ONE), B) && InQueue(Rows(before.queue, TWO), B)
    ensures var g := WaitGraph(RunOf(START, run));
            (B, C) in g && (C, B) in g && !Acyclic(g)
  {
    var release := Event(ReleaseOp(ONE, A), Permissive(0));
    var r1 := [Get(ONE, A), Get(TWO, C)];
    var r2 := [Get(ONE, B), Get(ONE, C), Get(TWO, B)];
    run := r1 + r2 + [release];
    assert AllProper(run) by {
      assert forall e | e in r1 :: Proper(e.op);
      assert forall e | e in r2 :: Proper(e.op);
    }
    assert run[..|run| - 1] == r1 + r2;
    assert [release][1..] == [];
    hide Step, Scene, WaitGraph, Acyclic, AllProper, Get, Permissive, RunOf, NoneRefused, Rows, InQueue;
    var s := TwoHeld();
    var t := ThreeQueued(s);
    QueuedTwice(t);
    GrantClosesCycle(t);
    RunConcat(START, r1, r2);
    RunConcat(START, r1 + r2, [release]);
    LastReleased(t, release);
  }

  lemma LastReleased(t: State, release: Event)
    requires release.op.ReleaseOp?
    ensures RunOf(t, [release]) == Step(t, release.op, release.env) && NoneRefused(t, [release])
  {
    hide Step;
    assert [release][1..] == [];
  }

  lemma {:induction false} RunConcat(s: State, a: seq<Event>, b: seq<Event>)
    ensures RunOf(s, a + b) == RunOf(RunOf(s, a), b)
    ensures NoneRefused(s, a + b) <==> NoneRefused(s, a) && NoneRefused(RunOf(s, a), b)
    decreases |a|
  {
    hide Step, RefusedAt;
    if a == [] {
      assert a + b == b;
    } else {
      assert (a + b)[1..] == a[1..] + b;
      RunConcat(Step(s, a[0].op, a[0].env), a[1..], b);
    }
  }
}
