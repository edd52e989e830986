/** Finite directed graphs over names: walks, reachability, cycles, and the two facts
    that deadlock detection and the topology rest on.
      - `CycleThroughTarget`: adding edges that all point at one target closes a cycle
        exactly when the target already reaches one of their sources.
      - `OrderedIsAcyclic`: nodes listed so that every successor is listed earlier lie on no cycle.
 */
module Graphs {

  type Graph = set<(string, string)>

  ghost predicate IsWalk(g: Graph, p: seq<string>) {
    && |p| > 0
    && forall i | 0 <= i < |p| - 1 :: (p[i], p[i + 1]) in g
  }

  ghost predicate WalkBetween(g: Graph, p: seq<string>, a: string, b: string) {
    IsWalk(g, p) && p[0] == a && p[|p| - 1] == b
  }

  /** `b` can be reached from `a` in zero or more steps. */
  ghost predicate Reaches(g: Graph, a: string, b: string) {
    exists p :: WalkBetween(g, p, a, b)
  }

  /** `b` can be reached from `a` in one or more steps. */
  ghost predicate ReachesStrictly(g: Graph, a: string, b: string) {
    exists p :: |p| > 1 && WalkBetween(g, p, a, b)
  }

  ghost predicate Acyclic(g: Graph) {
    forall a :: !ReachesStrictly(g, a, a)
  }

  ghost predicate CycleReachable(g: Graph, start: string) {
    exists a :: Reaches(g, start, a) && ReachesStrictly(g, a, a)
  }

  /** A simple cycle, written without repeating its first node. */
  ghost predicate IsCycle(g: Graph, c: seq<string>) {
    && IsWalk(g, c)
    && (c[|c| - 1], c[0]) in g
    && Distinct(c)
  }

  ghost predicate Distinct(s: seq<string>) {
    forall i, j | 0 <= i < j < |s| :: s[i] != s[j]
  }

  /** Every edge of `g` from a listed node leads to a node listed earlier. */
  ghost predicate Ordered(g: Graph, order: seq<string>) {
    forall i, w | 0 <= i < |order| && (order[i], w) in g :: w in order[..i]
  }

  /** `g` with an edge from every source to `target`. */
  ghost function AddInto(g: Graph, sources: set<string>, target: string): Graph {
    g + set w | w in sources :: (w, target)
  }

  lemma WalkSlice(g: Graph, p: seq<string>, i: nat, j: nat)
    requires IsWalk(g, p) && i < j <= |p|
    ensures WalkBetween(g, p[i..j], p[i], p[j - 1])
  {
    forall k | 0 <= k < j - i - 1
      ensures (p[i..j][k], p[i..j][k + 1]) in g
    {
      assert (p[i + k], p[i + k + 1]) in g;
    }
  }

  lemma ReachesReflexive(g: Graph, a: string)
    ensures Reaches(g, a, a)
  {
    assert WalkBetween(g, [a], a, a);
  }

  lemma WalkConcat(g: Graph, p: seq<string>, q: seq<string>)
    requires IsWalk(g, p) && IsWalk(g, q) && (p[|p| - 1], q[0]) in g
    ensures WalkBetween(g, p + q, p[0], q[|q| - 1])
  {
    var r := p + q;
    forall i | 0 <= i < |r| - 1
      ensures (r[i], r[i + 1]) in g
    {
      if i < |p| - 1 {
        assert (p[i], p[i + 1]) in g;
      } else if i >= |p| {
        assert (q[i - |p|], q[i - |p| + 1]) in g;
      }
    }
  }

  lemma ReachesEdge(g: Graph, a: string, b: string, c: string)
    requires Reaches(g, a, b) && (b, c) in g
    ensures ReachesStrictly(g, a, c)
  {
    var p :| WalkBetween(g, p, a, b);
    WalkConcat(g, p, [c]);
  }

  lemma EdgeReaches(g: Graph, a: string, b: string, c: string)
    requires (a, b) in g && Reaches(g, b, c)
    ensures ReachesStrictly(g, a, c)
  {
    var p :| WalkBetween(g, p, b, c);
    WalkConcat(g, [a], p);
  }

  lemma ReachSplit(g: Graph, a: string, b: string)
    requires Reaches(g, a, b)
    ensures a == b || ReachesStrictly(g, a, b)
  {
    var p :| WalkBetween(g, p, a, b);
    assert |p| == 1 ==> a == b;
  }

  /** The first step of a non-empty walk. */
  lemma FirstStep(g: Graph, a: string, b: string) returns (next: string)
    requires ReachesStrictly(g, a, b)
    ensures (a, next) in g && Reaches(g, next, b)
  {
    var p :| |p| > 1 && WalkBetween(g, p, a, b);
    next := p[1];
    assert (p[0], p[1]) in g;
    WalkSlice(g, p, 1, |p|);
  }

  /** The last step of a non-empty walk. */
  lemma LastStep(g: Graph, a: string, b: string) returns (prev: string)
    requires ReachesStrictly(g, a, b)
    ensures (prev, b) in g && Reaches(g, a, prev)
  {
    var p :| |p| > 1 && WalkBetween(g, p, a, b);
    prev := p[|p| - 2];
    assert (p[|p| - 2], p[|p| - 2 + 1]) in g;
    WalkSlice(g, p, 0, |p| - 1);
  }

  lemma SubgraphReaches(small: Graph, big: Graph, a: string, b: string)
    requires small <= big
    ensures Reaches(small, a, b) ==> Reaches(big, a, b)
    ensures ReachesStrictly(small, a, b) ==> ReachesStrictly(big, a, b)
  {
    if Reaches(small, a, b) {
      var p :| WalkBetween(small, p, a, b);
      assert WalkBetween(big, p, a, b);
    }
    if ReachesStrictly(small, a, b) {
      var p :| |p| > 1 && WalkBetween(small, p, a, b);
      assert WalkBetween(big, p, a, b);
    }
  }

  lemma SubgraphAcyclic(small: Graph, big: Graph)
    requires small <= big && Acyclic(big)
    ensures Acyclic(small)
  {
    forall a ensures !ReachesStrictly(small, a, a) {
      SubgraphReaches(small, big, a, a);
    }
  }

  /** A walk from `target` in the enlarged graph can be replaced by one in `g`: cut it
      at the last new edge, which ends at `target` again. */
  lemma {:induction false} WalkFromTarget(g: Graph, sources: set<string>, target: string, p: seq<string>)
    requires IsWalk(AddInto(g, sources, target), p) && p[0] == target
    ensures Reaches(g, target, p[|p| - 1])
    decreases |p|
  {
    var big := AddInto(g, sources, target);
    if i :| 0 <= i < |p| - 1 && (p[i], p[i + 1]) !in g {
      assert (p[i], p[i + 1]) in big;
      WalkSlice(big, p, i + 1, |p|);
      WalkFromTarget(g, sources, target, p[i + 1..|p|]);
    } else {
      assert WalkBetween(g, p, target, p[|p| - 1]);
    }
  }

  /** New edges into one target close a cycle exactly when the target reaches a source. */
  lemma CycleThroughTarget(g: Graph, sources: set<string>, target: string)
    ensures Acyclic(AddInto(g, sources, target)) <==>
            Acyclic(g) && forall w | w in sources :: !Reaches(g, target, w)
  {
    var big := AddInto(g, sources, target);
    if Acyclic(big) {
      SubgraphAcyclic(g, big);
      forall w | w in sources ensures !Reaches(g, target, w) {
        if Reaches(g, target, w) {
          SubgraphReaches(g, big, target, w);
          ReachesEdge(big, target, w, target);
        }
      }
    }
    if Acyclic(g) && !Acyclic(big) {
      var a :| ReachesStrictly(big, a, a);
      var c :| |c| > 1 && WalkBetween(big, c, a, a);
      var w := CycleMeetsNewEdge(g, sources, target, c);
    }
  }

  lemma CycleMeetsNewEdge(g: Graph, sources: set<string>, target: string, c: seq<string>) returns (w: string)
    requires Acyclic(g)
    requires |c| > 1 && WalkBetween(AddInto(g, sources, target), c, c[0], c[0])
    ensures w in sources && Reaches(g, target, w)
  {
    var big := AddInto(g, sources, target);
    var i := NewEdgeOn(g, big, c);
    w := c[i];
    assert (w, target) !in g ==> (w, target) in big && w in sources;
    var rest := RoundFrom(big, c, i);
    WalkFromTarget(g, sources, target, rest);
  }

  /** A cycle of the larger graph uses an edge that the acyclic smaller one does not have. */
  lemma NewEdgeOn(g: Graph, big: Graph, c: seq<string>) returns (i: nat)
    requires Acyclic(g)
    requires |c| > 1 && WalkBetween(big, c, c[0], c[0])
    ensures i < |c| - 1 && (c[i], c[i + 1]) in big && (c[i], c[i + 1]) !in g
  {
    var a := c[0];
    assert WalkBetween(g, c, a, a) ==> ReachesStrictly(g, a, a);
    i :| i < |c| - 1 && (c[i], c[i + 1]) !in g;
    assert (c[i], c[i + 1]) in big;
  }

  /** The way round a closed walk from the end of its i-th edge to the start of it. */
  lemma RoundFrom(g: Graph, c: seq<string>, i: nat) returns (p: seq<string>)
    requires |c| > 1 && WalkBetween(g, c, c[0], c[0]) && i < |c| - 1
    ensures WalkBetween(g, p, c[i + 1], c[i])
  {
    WalkSlice(g, c, i + 1, |c|);
    p := c[i + 1..|c|];
    if i > 0 {
      assert (c[0], c[0 + 1]) in g;
      WalkSlice(g, c, 1, i + 1);
      WalkConcat(g, p, c[1..i + 1]);
      p := p + c[1..i + 1];
    }
  }

  /** On an acyclic graph, a new edge makes a cycle reachable from its source exactly
      when it closes one itself. */
  lemma NewEdgeCycle(g: Graph, from: string, to: string)
    requires Acyclic(g)
    ensures CycleReachable(g + {(from, to)}, from) <==> Reaches(g, to, from)
    ensures Acyclic(g + {(from, to)}) <==> !Reaches(g, to, from)
  {
    var big := g + {(from, to)};
    assert AddInto(g, {from}, to) == big;
    CycleThroughTarget(g, {from}, to);
    if Reaches(g, to, from) {
      SubgraphReaches(g, big, to, from);
      EdgeReaches(big, from, to, from);
      ReachesReflexive(big, from);
    }
  }

  lemma {:induction false} OrderedWalk(g: Graph, order: seq<string>, p: seq<string>, k: nat)
    requires Ordered(g, order) && IsWalk(g, p) && k < |order| && p[0] == order[k]
    ensures |p| > 1 ==> p[|p| - 1] in order[..k]
    ensures p[|p| - 1] in order[..k + 1]
    decreases |p|
  {
    if |p| > 1 {
      assert (p[0], p[0 + 1]) in g;
      var m :| 0 <= m < k && order[m] == p[1];
      WalkSlice(g, p, 1, |p|);
      OrderedWalk(g, order, p[1..|p|], m);
    }
  }

  /** Nothing in an ordered list lies on a cycle, and the list is closed under reachability. */
  lemma OrderedIsAcyclic(g: Graph, order: seq<string>, a: string)
    requires Ordered(g, order) && a in order
    requires Distinct(order)
    ensures !ReachesStrictly(g, a, a)
    ensures forall b | Reaches(g, a, b) :: b in order
  {
    var k :| 0 <= k < |order| && order[k] == a;
    forall b | Reaches(g, a, b) ensures b in order {
      var p :| WalkBetween(g, p, a, b);
      OrderedWalk(g, order, p, k);
    }
    if ReachesStrictly(g, a, a) {
      var p :| |p| > 1 && WalkBetween(g, p, a, a);
      OrderedWalk(g, order, p, k);
      assert false;
    }
  }

  lemma CycleIsReal(g: Graph, c: seq<string>)
    requires IsCycle(g, c)
    ensures ReachesStrictly(g, c[0], c[0])
  {
    WalkConcat(g, c, [c[0]]);
  }

  lemma EmptyAcyclic()
    ensures Acyclic({})
  {
    forall a ensures !ReachesStrictly({}, a, a) {
      if ReachesStrictly({}, a, a) {
        var n := FirstStep({}, a, a);
      }
    }
  }

  // ---------------------------------------------------------------- depth-first search

  /** The stack is a walk, and what has been left is ordered by finishing time. */
  ghost predicate SearchOk(g: Graph, path: seq<string>, finished: seq<string>,
                           visited: set<string>, recStack: set<string>)
  {
    && (path != [] ==> IsWalk(g, path))
    && Distinct(path) && Distinct(finished)
    && Ordered(g, finished)
    && recStack == Members(path)
    && visited == recStack + Members(finished)
    && recStack !! Members(finished)
  }

  ghost function Members(s: seq<string>): set<string> {
    set x | x in s
  }

  lemma Push(g: Graph, path: seq<string>, finished: seq<string>,
             visited: set<string>, recStack: set<string>, node: string)
    requires SearchOk(g, path, finished, visited, recStack) && node !in visited
    requires path != [] ==> (path[|path| - 1], node) in g
    ensures SearchOk(g, path + [node], finished, visited + {node}, recStack + {node})
  {
    if path != [] {
      WalkConcat(g, path, [node]);
    }
  }

  lemma Pop(g: Graph, path: seq<string>, finished: seq<string>,
            visited: set<string>, recStack: set<string>)
    requires SearchOk(g, path, finished, visited, recStack) && path != []
    requires forall n | (path[|path| - 1], n) in g :: n in finished
    ensures SearchOk(g, path[..|path| - 1], finished + [path[|path| - 1]],
                     visited, recStack - {path[|path| - 1]})
  {
    var top := path[|path| - 1];
    var rest := path[..|path| - 1];
    assert path == rest + [top];
    if rest != [] {
      WalkSlice(g, path, 0, |path| - 1);
      assert path[0..|path| - 1] == rest;
    }
    var order := finished + [top];
    forall i, w | 0 <= i < |order| && (order[i], w) in g
      ensures w in order[..i]
    {
      assert i < |finished| ==> order[..i] == finished[..i];
      assert i == |finished| ==> order[..i] == finished;
    }
    assert top in Members(path) && top !in Members(rest);
    assert Members(path) == Members(rest) + {top};
    assert Members(order) == Members(finished) + {top};
  }
}
