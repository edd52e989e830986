/** The two orders in which internal/topology/manager.go walks the DAG: ancestors, parents
    first, and descendants. */
module TopologyOrders {
  import opened Graphs
  import opened Topology

  // ---------------------------------------------------------------- ancestors

  /** Wherever a node is listed, its parents have been listed before. */
  ghost predicate ParentsFirst(g: Graph, list: seq<string>) {
    forall i, p | 0 <= i < |list| && (p, list[i]) in g :: p in list[..i]
  }

  /** The open calls: each one is for a parent of the one before. */
  ghost predicate IsClimb(g: Graph, stack: seq<string>) {
    forall i | 0 <= i < |stack| - 1 :: (stack[i + 1], stack[i]) in g
  }

  ghost predicate ClimbOk(g: Graph, root: string, list: seq<string>, visited: set<string>,
                          done: set<string>, stack: seq<string>)
  {
    && IsClimb(g, stack)
    && visited == done + Members(stack)
    && ParentsFirst(g, list)
    && (forall n, p | n in done && (p, n) in g :: p in list)
    && (forall x | x in list :: x in done && ReachesStrictly(g, x, root))
    && (forall v | v in visited :: Reaches(g, v, root))
  }

  class AncestorWalk {
    const parents: Adjacent
    ghost const g: Graph
    ghost const root: string
    var visited: set<string>
    var ancestors: seq<string>
    ghost var done: set<string>
    ghost var stack: seq<string>

    constructor (parents: Adjacent, ghost g: Graph, ghost root: string)
      ensures this.parents == parents && this.g == g && this.root == root
      ensures Valid() && stack == [] && ancestors == []
    {
      this.parents, this.g, this.root := parents, g, root;
      visited, ancestors, done, stack := {}, [], {}, [];
    }

    ghost predicate Valid()
      reads this
    {
      ClimbOk(g, root, ancestors, visited, done, stack)
    }

    method Dfs(n: string, ghost all: set<string>)
      requires Valid() && Acyclic(g) && n in all && Reaches(g, n, root)
      requires forall a, b :: (a, b) in g <==> a in At(parents, b)
      requires forall e | e in g :: e.0 in all
      requires stack != [] ==> (n, stack[|stack| - 1]) in g
      modifies this
      ensures Valid() && stack == old(stack) && n in done
      ensures old(ancestors) <= ancestors && old(visited) <= visited
      decreases all - visited
    {
      hide Acyclic, Reaches, ReachesStrictly, ClimbOk;
      NotOpen(g, root, ancestors, visited, done, stack, n);
      if n in visited {
        return;
      }
      Enter(g, root, ancestors, visited, done, stack, n);
      visited := visited + {n};
      stack := stack + [n];
      ghost var deeper := stack;
      var folks := At(parents, n);
      for i := 0 to |folks|
        invariant Valid() && stack == deeper
        invariant forall j | 0 <= j < i :: folks[j] in ancestors
        invariant old(ancestors) <= ancestors && old(visited) + {n} <= visited
      {
        var parent := folks[i];
        assert (parent, n) in g && (parent, n).0 in all;
        ParentReaches(g, root, parent, n);
        Dfs(parent, all);
        Append(g, root, ancestors, visited, done, stack, parent, n);
        ancestors := ancestors + [parent];
      }
      Leave(g, root, ancestors, visited, done, stack, n);
      stack := stack[..|stack| - 1];
      done := done + {n};
    }
  }

  /** On a DAG a node is never reached again while its own call is open. */
  lemma NotOpen(g: Graph, root: string, list: seq<string>, visited: set<string>, done: set<string>, stack: seq<string>, n: string)
    requires ClimbOk(g, root, list, visited, done, stack) && Acyclic(g)
    requires stack != [] ==> (n, stack[|stack| - 1]) in g
    ensures n !in stack
    ensures n in visited ==> n in done
  {
    if k :| 0 <= k < |stack| && stack[k] == n {
      ClimbReaches(g, stack, k);
      EdgeReaches(g, n, stack[|stack| - 1], n);
    }
  }

  lemma {:induction false} ClimbReaches(g: Graph, stack: seq<string>, k: nat)
    requires IsClimb(g, stack) && k < |stack|
    ensures Reaches(g, stack[|stack| - 1], stack[k])
    decreases |stack| - k
  {
    if k == |stack| - 1 {
      ReachesReflexive(g, stack[k]);
    } else {
      ClimbReaches(g, stack, k + 1);
      assert (stack[k + 1], stack[k]) in g;
      ReachesEdge(g, stack[|stack| - 1], stack[k + 1], stack[k]);
    }
  }

  lemma ParentReaches(g: Graph, root: string, parent: string, n: string)
    requires (parent, n) in g && Reaches(g, n, root)
    ensures Reaches(g, parent, root) && ReachesStrictly(g, parent, root)
  {
    EdgeReaches(g, parent, n, root);
  }

  lemma Enter(g: Graph, root: string, list: seq<string>, visited: set<string>, done: set<string>, stack: seq<string>, n: string)
    requires ClimbOk(g, root, list, visited, done, stack) && Reaches(g, n, root)
    requires stack != [] ==> (n, stack[|stack| - 1]) in g
    ensures ClimbOk(g, root, list, visited + {n}, done, stack + [n])
  {
    hide Reaches, ReachesStrictly, ParentsFirst;
    assert Members(stack + [n]) == Members(stack) + {n};
  }

  lemma Append(g: Graph, root: string, list: seq<string>, visited: set<string>, done: set<string>, stack: seq<string>,
               parent: string, n: string)
    requires ClimbOk(g, root, list, visited, done, stack) && parent in done
    requires (parent, n) in g && Reaches(g, n, root)
    ensures ClimbOk(g, root, list + [parent], visited, done, stack)
  {
    ParentReaches(g, root, parent, n);
    hide Reaches, ReachesStrictly, IsClimb;
    var longer := list + [parent];
    forall i, p | 0 <= i < |longer| && (p, longer[i]) in g ensures p in longer[..i] {
      assert i < |list| ==> longer[..i] == list[..i];
      assert i == |list| ==> longer[..i] == list;
    }
  }

  lemma Leave(g: Graph, root: string, list: seq<string>, visited: set<string>, done: set<string>, stack: seq<string>, n: string)
    requires ClimbOk(g, root, list, visited, done, stack) && stack != [] && stack[|stack| - 1] == n
    requires forall p | (p, n) in g :: p in list
    ensures ClimbOk(g, root, list, visited, done + {n}, stack[..|stack| - 1])
  {
    hide Reaches, ReachesStrictly, ParentsFirst;
    var rest := stack[..|stack| - 1];
    assert stack == rest + [n];
    assert Members(stack) == Members(rest) + {n};
  }

  /** A list that holds the parents of `root` and of all its own entries holds every strict ancestor. */
  lemma {:induction false} ClosedUpwards(g: Graph, root: string, list: seq<string>, p: seq<string>)
    requires forall x | (x, root) in g :: x in list
    requires forall n, x | n in list && (x, n) in g :: x in list
    requires |p| > 1 && IsWalk(g, p) && p[|p| - 1] == root
    ensures p[0] in list
    decreases |p|
  {
    assert (p[0], p[0 + 1]) in g;
    if |p| > 2 {
      WalkSlice(g, p, 1, |p|);
      ClosedUpwards(g, root, list, p[1..|p|]);
    }
  }

  lemma AllAncestors(g: Graph, root: string, list: seq<string>)
    requires forall x | (x, root) in g :: x in list
    requires forall n, x | n in list && (x, n) in g :: x in list
    ensures forall x | ReachesStrictly(g, x, root) :: x in list
  {
    forall x | ReachesStrictly(g, x, root) ensures x in list {
      var p :| |p| > 1 && WalkBetween(g, p, x, root);
      ClosedUpwards(g, root, list, p);
    }
  }

  /** Lists exactly the strict ancestors (some perhaps more than once), parents always first. */
  method CollectAncestors(nodes: set<string>, children: Adjacent, parents: Adjacent, node: string)
    returns (ancestors: seq<string>)
    requires TopologyOk(nodes, children, parents)
    ensures forall x :: x in ancestors <==> ReachesStrictly(EdgesOf(children), x, node)
    ensures ParentsFirst(EdgesOf(children), ancestors)
  {
    ghost var g := EdgesOf(children);
    MirrorEdges(nodes, children, parents);
    hide Acyclic, Reaches, ReachesStrictly, ParentsFirst, TopologyOk;
    var walk := new AncestorWalk(parents, g, node);
    ReachesReflexive(g, node);
    walk.Dfs(node, nodes + {node});
    AllAncestors(g, node, walk.ancestors);
    ancestors := walk.ancestors;
  }

  lemma MirrorEdges(nodes: set<string>, children: Adjacent, parents: Adjacent)
    requires TopologyOk(nodes, children, parents)
    ensures Acyclic(EdgesOf(children))
    ensures forall a, b :: (a, b) in EdgesOf(children) <==> a in At(parents, b)
    ensures forall e | e in EdgesOf(children) :: e.0 in nodes && e.1 in nodes
  {
    forall a, b ensures (a, b) in EdgesOf(children) <==> a in At(parents, b) {
      EdgesAreKids(children, a);
    }
  }

  // ---------------------------------------------------------------- descendants

  ghost predicate DescentOk(g: Graph, root: string, list: seq<string>, visited: set<string>, done: set<string>) {
    && visited == Members(list) && Distinct(list) && done <= visited
    && (forall n, c | n in done && (n, c) in g :: c in visited)
    && (forall v | v in visited :: ReachesStrictly(g, root, v))
  }

  class DescendantWalk {
    const children: Adjacent
    ghost const root: string
    var visited: set<string>
    var descendants: seq<string>
    ghost var done: set<string>

    constructor (children: Adjacent, ghost root: string)
      ensures this.children == children && this.root == root
      ensures Valid() && visited == {} && done == {}
    {
      this.children, this.root := children, root;
      visited, descendants, done := {}, [], {};
    }

    ghost predicate Valid()
      reads this
    {
      DescentOk(EdgesOf(children), root, descendants, visited, done)
    }

    method Dfs(n: string, ghost all: set<string>)
      requires Valid() && n in all && ReachesStrictly(EdgesOf(children), root, n)
      requires forall e | e in EdgesOf(children) :: e.1 in all
      modifies this
      ensures Valid() && n in visited
      ensures visited - done == old(visited - done)
      ensures old(visited) <= visited
      decreases all - visited
    {
      hide ReachesStrictly, DescentOk;
      if n in visited {
        return;
      }
      ghost var g := EdgesOf(children);
      Discover(g, root, descendants, visited, done, n);
      visited := visited + {n};
      descendants := descendants + [n];
      var kids := At(children, n);
      for i := 0 to |kids|
        invariant Valid() && visited - done == old(visited - done) + {n}
        invariant old(visited) + {n} <= visited
        invariant forall j | 0 <= j < i :: kids[j] in visited
      {
        KidEdge(children, n, i);
        assert (n, kids[i]).1 in all;
        ChildReached(g, root, n, kids[i]);
        Dfs(kids[i], all);
      }
      EdgesAreKids(children, n);
      Finish(g, root, descendants, visited, done, n);
      done := done + {n};
    }
  }

  lemma Discover(g: Graph, root: string, list: seq<string>, visited: set<string>, done: set<string>, n: string)
    requires DescentOk(g, root, list, visited, done) && n !in visited && ReachesStrictly(g, root, n)
    ensures DescentOk(g, root, list + [n], visited + {n}, done)
    ensures n !in done
  {
    hide ReachesStrictly;
    assert Members(list + [n]) == Members(list) + {n};
  }

  lemma Finish(g: Graph, root: string, list: seq<string>, visited: set<string>, done: set<string>, n: string)
    requires DescentOk(g, root, list, visited, done) && n in visited
    requires forall c | (n, c) in g :: c in visited
    ensures DescentOk(g, root, list, visited, done + {n})
  {
    hide ReachesStrictly;
  }

  lemma DescentFacts(g: Graph, root: string, list: seq<string>, visited: set<string>, done: set<string>)
    requires DescentOk(g, root, list, visited, done)
    ensures done <= visited && Distinct(list)
    ensures forall x :: x in list <==> x in visited
    ensures forall n, c | n in done && (n, c) in g :: c in visited
    ensures forall x | x in visited :: ReachesStrictly(g, root, x)
  {
    hide ReachesStrictly;
  }

  lemma ChildReached(g: Graph, root: string, n: string, child: string)
    requires ReachesStrictly(g, root, n) && (n, child) in g
    ensures ReachesStrictly(g, root, child)
  {
    ReachesEdge(g, root, n, child);
  }

  lemma {:induction false} ClosedDownwards(g: Graph, root: string, visited: set<string>, p: seq<string>)
    requires forall c | (root, c) in g :: c in visited
    requires forall n, c | n in visited && (n, c) in g :: c in visited
    requires |p| > 1 && IsWalk(g, p) && p[0] == root
    ensures p[|p| - 1] in visited
    decreases |p|
  {
    assert (p[|p| - 2], p[|p| - 2 + 1]) in g;
    if |p| > 2 {
      WalkSlice(g, p, 0, |p| - 1);
      ClosedDownwards(g, root, visited, p[0..|p| - 1]);
    }
  }

  lemma AllDescendants(g: Graph, root: string, visited: set<string>)
    requires forall c | (root, c) in g :: c in visited
    requires forall n, c | n in visited && (n, c) in g :: c in visited
    ensures forall x | ReachesStrictly(g, root, x) :: x in visited
  {
    forall x | ReachesStrictly(g, root, x) ensures x in visited {
      var p :| |p| > 1 && WalkBetween(g, p, root, x);
      ClosedDownwards(g, root, visited, p);
    }
  }

  lemma NotItself(g: Graph, node: string)
    requires Acyclic(g)
    ensures !ReachesStrictly(g, node, node)
  {
  }

  /** Lists exactly the strict descendants, each once. */
  method CollectDescendants(nodes: set<string>, children: Adjacent, parents: Adjacent, node: string)
    returns (descendants: seq<string>)
    requires TopologyOk(nodes, children, parents)
    ensures forall x :: x in descendants <==> ReachesStrictly(EdgesOf(children), node, x)
    ensures Distinct(descendants) && node !in descendants
  {
    ghost var g := EdgesOf(children);
    MirrorEdges(nodes, children, parents);
    hide Acyclic, Reaches, ReachesStrictly, TopologyOk, DescentOk, Distinct;
    var walk := new DescendantWalk(children, node);
    var kids := At(children, node);
    for i := 0 to |kids|
      invariant walk.Valid() && walk.children == children && walk.root == node
      invariant walk.visited - walk.done == {}
      invariant forall j | 0 <= j < i :: kids[j] in walk.visited
    {
      KidEdge(children, node, i);
      assert (node, kids[i]).1 in nodes;
      ReachesReflexive(g, node);
      ReachesEdge(g, node, node, kids[i]);
      walk.Dfs(kids[i], nodes);
    }
    EdgesAreKids(children, node);
    assert forall n | n in walk.visited :: n in walk.done || n in walk.visited - walk.done;
    DescentFacts(g, node, walk.descendants, walk.visited, walk.done);
    NotItself(g, node);
    AllDescendants(g, node, walk.visited);
    descendants := walk.descendants;
  }
}
