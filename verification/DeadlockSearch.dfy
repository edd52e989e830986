/** The depth-first search of internal/lock/manager.go that looks for a cycle in the
    wait-for graph and returns it as a witness. */
module DeadlockSearch {
  import opened Graphs

  /** waiter -> (holder -> the lock that makes the waiter wait for the holder) */
  type Adjacency = map<string, map<string, string>>

  ghost function Edges(adj: Adjacency): Graph {
    set w, h | w in adj && h in adj[w] :: (w, h)
  }

  /** Every node a search from `start` can meet. */
  ghost function Nodes(adj: Adjacency, start: string): set<string> {
    {start} + (set w, h | w in adj && h in adj[w] :: h)
  }

  /** The variables that the recursive closure in `detectCycle` shares between its calls. */
  class CycleSearch {
    const adj: Adjacency
    var visited: set<string>
    var recStack: set<string>
    var path: seq<string>
    ghost var finished: seq<string>

    constructor (adj: Adjacency)
      ensures Valid() && this.adj == adj && visited == {} && path == []
    {
      this.adj := adj;
      visited, recStack, path, finished := {}, {}, [], [];
    }

    ghost predicate Valid()
      reads this
    {
      SearchOk(Edges(adj), path, finished, visited, recStack)
    }

    method Dfs(node: string, ghost nodes: set<string>) returns (found: bool, cycle: seq<string>)
      requires Valid()
      requires node !in visited && node in nodes
      requires path != [] ==> (path[|path| - 1], node) in Edges(adj)
      requires forall e | e in Edges(adj) :: e.1 in nodes
      modifies this
      ensures !found ==> Valid() && path == old(path) && node in finished
      ensures !found ==> old(finished) <= finished && old(visited) <= visited
      ensures found ==> IsWalk(Edges(adj), path) && old(path) + [node] <= path
      ensures found ==> IsCycle(Edges(adj), cycle) && cycle[0] in path
      decreases nodes - visited, 1
    {
      ghost var g := Edges(adj);
      Push(g, path, finished, visited, recStack, node);
      visited := visited + {node};
      recStack := recStack + {node};
      path := path + [node];
      ghost var deeper := path;

      var todo := Neighbours(adj, node);
      while todo != {}
        invariant Valid() && path == deeper
        invariant forall n | n in todo :: (node, n) in g
        invariant forall n | (node, n) in g :: n in todo || n in finished
        invariant old(finished) <= finished && old(visited) + {node} <= visited
        decreases todo
      {
        var next :| next in todo;
        todo := todo - {next};
        found, cycle := Follow(next, nodes);
        if found {
          return;
        }
      }

      Pop(g, path, finished, visited, recStack);
      path := path[..|path| - 1];
      recStack := recStack - {node};
      finished := finished + [node];
      return false, [];
    }

    /** One edge out of the node on top of the stack. */
    method Follow(next: string, ghost nodes: set<string>) returns (found: bool, cycle: seq<string>)
      requires Valid() && path != [] && (path[|path| - 1], next) in Edges(adj)
      requires forall e | e in Edges(adj) :: e.1 in nodes
      modifies this
      ensures !found ==> Valid() && path == old(path) && next in finished
      ensures !found ==> old(finished) <= finished && old(visited) <= visited
      ensures found ==> IsWalk(Edges(adj), path) && old(path) <= path
      ensures found ==> IsCycle(Edges(adj), cycle) && cycle[0] in path
      decreases nodes - visited, 2
    {
      if next !in visited {
        assert (path[|path| - 1], next).1 in nodes;
        found, cycle := Dfs(next, nodes);
      } else if next in recStack {
        cycle := CutAt(path, next);
        found := true;
      } else {
        found, cycle := false, [];
      }
    }
  }

  /** The part of the path from the first occurrence of `node` on. */
  method CutAt(path: seq<string>, node: string) returns (cycle: seq<string>)
    requires node in path
    ensures 0 < |cycle| <= |path| && cycle == path[|path| - |cycle|..]
    ensures cycle[0] == node && node !in path[..|path| - |cycle|]
  {
    var start := 0;
    while path[start] != node
      invariant start < |path| && node !in path[..start]
      decreases |path| - start
    {
      start := start + 1;
    }
    cycle := path[start..];
  }

  function Neighbours(adj: Adjacency, node: string): (next: set<string>)
    ensures forall n :: n in next <==> (node, n) in Edges(adj)
  {
    if node in adj then adj[node].Keys else {}
  }

  /** Looks for a cycle reachable from `start`; the choice of the next neighbour is arbitrary. */
  method DetectCycle(adj: Adjacency, start: string)
    returns (nodes: seq<string>, locks: seq<string>, found: bool)
    ensures found <==> CycleReachable(Edges(adj), start)
    ensures found ==> IsCycle(Edges(adj), nodes) && Reaches(Edges(adj), start, nodes[0])
    ensures found ==> |locks| == |nodes|
    ensures found ==> forall i | 0 <= i < |nodes| :: Labels(adj, nodes, i, locks[i])
  {
    var search := new CycleSearch(adj);
    found, nodes := search.Dfs(start, Nodes(adj, start));
    if !found {
      NoCycleFrom(Edges(adj), search.finished, start);
      return [], [], false;
    }
    CycleIsReached(Edges(adj), search.path, start, nodes);
    locks := CycleLocks(adj, nodes);
  }

  /** Reads off the lock that labels each edge of a cycle. */
  method CycleLocks(adj: Adjacency, nodes: seq<string>) returns (locks: seq<string>)
    requires IsCycle(Edges(adj), nodes)
    ensures |locks| == |nodes|
    ensures forall i | 0 <= i < |nodes| :: Labels(adj, nodes, i, locks[i])
  {
    locks := [];
    var i := 0;
    while i < |nodes|
      invariant 0 <= i <= |nodes| && |locks| == i
      invariant forall j | 0 <= j < i :: Labels(adj, nodes, j, locks[j])
    {
      var cur, next := nodes[i], nodes[(i + 1) % |nodes|];
      CycleEdge(Edges(adj), nodes, i);
      if cur in adj && next in adj[cur] {
        locks := locks + [adj[cur][next]];
      }
      i := i + 1;
    }
  }

  /** `lock` is what the i-th node of the cycle waits for, held by the node after it. */
  ghost predicate Labels(adj: Adjacency, nodes: seq<string>, i: nat, lock: string)
    requires i < |nodes|
  {
    var cur, next := nodes[i], nodes[(i + 1) % |nodes|];
    cur in adj && next in adj[cur] && lock == adj[cur][next]
  }

  lemma CycleIsReached(g: Graph, path: seq<string>, start: string, nodes: seq<string>)
    requires IsWalk(g, path) && path[0] == start
    requires IsCycle(g, nodes) && nodes[0] in path
    ensures Reaches(g, start, nodes[0]) && CycleReachable(g, start)
  {
    var k :| 0 <= k < |path| && path[k] == nodes[0];
    WalkSlice(g, path, 0, k + 1);
    CycleIsReal(g, nodes);
  }

  /** Each node of a cycle has an edge to the next, the last one to the first. */
  lemma CycleEdge(g: Graph, c: seq<string>, i: nat)
    requires IsCycle(g, c) && i < |c|
    ensures (c[i], c[(i + 1) % |c|]) in g
  {
    if i + 1 < |c| {
      assert (i + 1) % |c| == i + 1;
    } else {
      assert (i + 1) % |c| == 0;
    }
  }

  /** A search that ran to the end has seen no cycle because there is none. */
  lemma NoCycleFrom(g: Graph, finished: seq<string>, start: string)
    requires Ordered(g, finished) && Distinct(finished) && start in finished
    ensures !CycleReachable(g, start)
  {
    OrderedIsAcyclic(g, finished, start);
    forall a | Reaches(g, start, a)
      ensures !ReachesStrictly(g, a, a)
    {
      OrderedIsAcyclic(g, finished, a);
    }
  }
}
