/** The dependency topology of internal/topology/manager.go: nodes, two mirrored adjacency
    tables, a cycle check on every new edge, and the ancestor and descendant orders. */
module Topology {
  import opened Graphs

  type Adjacent = map<string, seq<string>>

  function At(m: Adjacent, n: string): seq<string> {
    if n in m then m[n] else []
  }

  ghost function EdgesOf(children: Adjacent): Graph {
    set a, b | a in children && b in children[a] :: (a, b)
  }

  ghost predicate NoRepeats(m: Adjacent) {
    forall n | n in m :: Distinct(m[n])
  }

  // ---------------------------------------------------------------- cycle search

  /** The variables shared by the recursive closure in `hasCycleDFS`. */
  class Search {
    const children: Adjacent
    var visited: set<string>
    var recStack: set<string>
    ghost var path: seq<string>
    ghost var finished: seq<string>

    constructor (children: Adjacent)
      ensures this.children == children && visited == {} && path == [] && Valid()
    {
      this.children := children;
      visited, recStack, path, finished := {}, {}, [], [];
    }

    ghost predicate Valid()
      reads this
    {
      SearchOk(EdgesOf(children), path, finished, visited, recStack)
    }

    method Dfs(node: string, ghost all: set<string>) returns (found: bool)
      requires Valid() && node !in visited && node in all
      requires path != [] ==> (path[|path| - 1], node) in EdgesOf(children)
      requires forall e | e in EdgesOf(children) :: e.1 in all
      modifies this
      ensures !found ==> Valid() && path == old(path) && node in finished
      ensures !found ==> old(finished) <= finished && old(visited) <= visited
      ensures found ==> !Acyclic(EdgesOf(children))
      decreases all - visited, 1
    {
      hide Acyclic;
      ghost var g := EdgesOf(children);
      Push(g, path, finished, visited, recStack, node);
      visited := visited + {node};
      recStack := recStack + {node};
      path := path + [node];
      ghost var deeper := path;
      var kids := At(children, node);
      for i := 0 to |kids|
        invariant Valid() && path == deeper
        invariant forall j | 0 <= j < i :: kids[j] in finished
        invariant old(finished) <= finished && old(visited) + {node} <= visited
      {
        KidEdge(children, node, i);
        found := Follow(kids[i], all);
        if found {
          return;
        }
      }
      EdgesAreKids(children, node);
      Pop(g, path, finished, visited, recStack);
      path := path[..|path| - 1];
      recStack := recStack - {node};
      finished := finished + [node];
      found := false;
    }

    method Follow(child: string, ghost all: set<string>) returns (found: bool)
      requires Valid() && path != [] && (path[|path| - 1], child) in EdgesOf(children)
      requires forall e | e in EdgesOf(children) :: e.1 in all
      modifies this
      ensures !found ==> Valid() && path == old(path) && child in finished
      ensures !found ==> old(finished) <= finished && old(visited) <= visited
      ensures found ==> !Acyclic(EdgesOf(children))
      decreases all - visited, 2
    {
      hide Acyclic;
      if child !in visited {
        assert (path[|path| - 1], child).1 in all;
        found := Dfs(child, all);
      } else if child in recStack {
        BackEdge(EdgesOf(children), path, child);
        found := true;
      } else {
        found := false;
      }
    }
  }

  lemma BackEdge(g: Graph, path: seq<string>, child: string)
    requires path != [] && IsWalk(g, path) && child in path && (path[|path| - 1], child) in g
    ensures !Acyclic(g)
  {
    var i :| 0 <= i < |path| && path[i] == child;
    WalkSlice(g, path, i, |path|);
    assert Reaches(g, child, path[|path| - 1]);
    ReachesEdge(g, child, path[|path| - 1], child);
  }

  lemma KidEdge(children: Adjacent, node: string, i: nat)
    requires i < |At(children, node)|
    ensures (node, At(children, node)[i]) in EdgesOf(children)
  {
  }

  lemma EdgesAreKids(children: Adjacent, node: string)
    ensures forall n :: (node, n) in EdgesOf(children) <==> n in At(children, node)
  {
  }

  lemma AllFinished(g: Graph, finished: seq<string>)
    requires Ordered(g, finished) && Distinct(finished)
    requires forall e | e in g :: e.0 in finished
    ensures Acyclic(g)
  {
    forall a ensures !ReachesStrictly(g, a, a) {
      if ReachesStrictly(g, a, a) {
        var next := FirstStep(g, a, a);
        assert (a, next).0 in finished;
        OrderedIsAcyclic(g, finished, a);
      }
    }
  }

  /** `hasCycleDFS`: starts from every node, in any order. */
  method HasCycle(nodes: set<string>, children: Adjacent) returns (found: bool)
    requires forall e | e in EdgesOf(children) :: e.0 in nodes && e.1 in nodes
    ensures found <==> !Acyclic(EdgesOf(children))
  {
    hide Acyclic;
    var search := new Search(children);
    var todo := nodes;
    while todo != {}
      invariant search.Valid() && search.path == [] && search.children == children
      invariant todo <= nodes && forall n | n in nodes - todo :: n in search.visited
      decreases todo
    {
      var node :| node in todo;
      todo := todo - {node};
      if node !in search.visited {
        found := search.Dfs(node, nodes);
        if found {
          return;
        }
        FinishedVisited(search.path, search.finished, search.visited, search.recStack, EdgesOf(children));
      }
    }
    FinishedVisited(search.path, search.finished, search.visited, search.recStack, EdgesOf(children));
    AllFinished(EdgesOf(children), search.finished);
    found := false;
  }

  lemma FinishedVisited(path: seq<string>, finished: seq<string>, visited: set<string>, recStack: set<string>, g: Graph)
    requires SearchOk(g, path, finished, visited, recStack) && path == []
    ensures forall n :: n in visited <==> n in finished
  {
  }

  // ---------------------------------------------------------------- the manager

  datatype Outcome = Declared | Removed | EmptyName | SelfLoop | UnknownNode | Exists | WouldCycle | NotFound

  /** A DAG over registered nodes, kept twice: children and parents are exact inverses. */
  ghost predicate TopologyOk(nodes: set<string>, children: Adjacent, parents: Adjacent) {
    && NoRepeats(children) && NoRepeats(parents)
    && (forall a, b :: b in At(children, a) <==> a in At(parents, b))
    && (forall e | e in EdgesOf(children) :: e.0 in nodes && e.1 in nodes)
    && Acyclic(EdgesOf(children))
  }

  class Manager {
    var nodes: set<string>
    var children: Adjacent
    var parents: Adjacent

    constructor ()
      ensures nodes == {} && EdgesOf(children) == {} && Valid()
    {
      nodes, children, parents := {}, map[], map[];
      new;
      EmptyAcyclic();
      assert EdgesOf(children) == {};
    }

    ghost predicate Valid()
      reads this
    {
      TopologyOk(nodes, children, parents)
    }

    method RegisterNode(name: string, tokenCost: int) returns (ok: bool)
      requires Valid()
      modifies this`nodes
      ensures Valid()
      ensures ok <==> name != "" && tokenCost >= 0 && name !in old(nodes)
      ensures nodes == if ok then old(nodes) + {name} else old(nodes)
    {
      if name == "" || tokenCost < 0 || name in nodes {
        return false;
      }
      nodes := nodes + {name};
      ok := true;
    }

    /** Adds the edge unless it exists already or would close a cycle. */
    method DeclareEdge(from: string, to: string) returns (r: Outcome)
      requires Valid()
      modifies this`children, this`parents
      ensures Valid()
      ensures r == Declared ==> EdgesOf(children) == EdgesOf(old(children)) + {(from, to)}
      ensures r != Declared ==> children == old(children) && parents == old(parents)
      ensures from != "" && to != "" && from != to && from in nodes && to in nodes
              && (from, to) !in EdgesOf(old(children)) ==>
                r == if Reaches(EdgesOf(old(children)), to, from) then WouldCycle else Declared
      ensures from == to || from !in nodes || to !in nodes || (from, to) in EdgesOf(old(children)) ==>
                r in {EmptyName, SelfLoop, UnknownNode, Exists}
    {
      hide Acyclic, Reaches, TopologyOk;
      ghost var g := EdgesOf(children);
      OkFacts(nodes, children, parents);
      if from == "" || to == "" {
        return EmptyName;
      }
      if from == to {
        return SelfLoop;
      }
      if from !in nodes || to !in nodes {
        return UnknownNode;
      }
      EdgesAreKids(children, from);
      if to in At(children, from) {
        return Exists;
      }
      var temp := children[from := At(children, from) + [to]];
      EdgesAfterAdd(children, from, to);
      NewEdgeCycle(g, from, to);
      var cyclic := HasCycle(nodes, temp);
      if cyclic {
        return WouldCycle;
      }
      AddKeeps(nodes, children, parents, from, to);
      children := temp;
      parents := parents[to := At(parents, to) + [from]];
      r := Declared;
    }

    method RemoveEdge(from: string, to: string) returns (r: Outcome)
      requires Valid()
      modifies this`children, this`parents
      ensures Valid()
      ensures r == if (from, to) in EdgesOf(old(children)) then Removed else NotFound
      ensures EdgesOf(children) == EdgesOf(old(children)) - {(from, to)}
    {
      hide Acyclic, TopologyOk, Distinct;
      OkFacts(nodes, children, parents);
      EdgesAreKids(children, from);
      var idx := IndexOf(At(children, from), to);
      if idx == -1 {
        return NotFound;
      }
      var pIdx := IndexOf(At(parents, to), from);
      RemoveKeeps(nodes, children, parents, from, to, idx, pIdx);
      children := children[from := At(children, from)[..idx] + At(children, from)[idx + 1..]];
      if pIdx >= 0 {
        parents := parents[to := At(parents, to)[..pIdx] + At(parents, to)[pIdx + 1..]];
      }
      r := Removed;
    }
  }

  method IndexOf(s: seq<string>, x: string) returns (i: int)
    ensures i == -1 <==> x !in s
    ensures i != -1 ==> 0 <= i < |s| && s[i] == x && x !in s[..i]
  {
    for k := 0 to |s|
      invariant x !in s[..k]
    {
      if s[k] == x {
        return k;
      }
    }
    i := -1;
  }

  lemma OkFacts(nodes: set<string>, children: Adjacent, parents: Adjacent)
    requires TopologyOk(nodes, children, parents)
    ensures Acyclic(EdgesOf(children))
    ensures forall e | e in EdgesOf(children) :: e.0 in nodes && e.1 in nodes
    ensures forall a, b :: b in At(children, a) <==> a in At(parents, b)
  {
  }

  lemma EdgesAfterAdd(children: Adjacent, from: string, to: string)
    ensures EdgesOf(children[from := At(children, from) + [to]]) == EdgesOf(children) + {(from, to)}
  {
    var temp := children[from := At(children, from) + [to]];
    forall a, b ensures (a, b) in EdgesOf(temp) <==> (a, b) in EdgesOf(children) || (a, b) == (from, to) {
      EdgesAreKids(temp, a);
      EdgesAreKids(children, a);
      assert At(temp, a) == if a == from then At(children, from) + [to] else At(children, a);
    }
  }

  lemma AddKeeps(nodes: set<string>, children: Adjacent, parents: Adjacent, from: string, to: string)
    requires TopologyOk(nodes, children, parents) && from in nodes && to in nodes
    requires to !in At(children, from)
    requires Acyclic(EdgesOf(children[from := At(children, from) + [to]]))
    ensures TopologyOk(nodes, children[from := At(children, from) + [to]], parents[to := At(parents, to) + [from]])
  {
    hide Acyclic;
    EdgesAfterAdd(children, from, to);
    var children', parents' := children[from := At(children, from) + [to]], parents[to := At(parents, to) + [from]];
    forall a, b ensures b in At(children', a) <==> a in At(parents', b) {
      assert b in At(children, a) <==> a in At(parents, b);
      assert At(children', a) == if a == from then At(children, from) + [to] else At(children, a);
      assert At(parents', b) == if b == to then At(parents, to) + [from] else At(parents, b);
    }
  }

  lemma RemoveKeeps(nodes: set<string>, children: Adjacent, parents: Adjacent, from: string, to: string, i: int, j: int)
    requires TopologyOk(nodes, children, parents)
    requires 0 <= i < |At(children, from)| && At(children, from)[i] == to
    requires j == -1 <==> from !in At(parents, to)
    requires j != -1 ==> 0 <= j < |At(parents, to)| && At(parents, to)[j] == from
    ensures j != -1
    ensures var children' := children[from := At(children, from)[..i] + At(children, from)[i + 1..]];
            var parents' := parents[to := At(parents, to)[..j] + At(parents, to)[j + 1..]];
            && TopologyOk(nodes, children', parents')
            && EdgesOf(children') == EdgesOf(children) - {(from, to)}
  {
    assert to in At(children, from);
    var kids, folks := At(children, from), At(parents, to);
    CutOut(kids, i);
    CutOut(folks, j);
    var children' := children[from := kids[..i] + kids[i + 1..]];
    var parents' := parents[to := folks[..j] + folks[j + 1..]];
    EdgesAfterCut(children, from, i);
    SubgraphAcyclic(EdgesOf(children'), EdgesOf(children));
    InverseAfterCut(children, parents, from, to, i, j);
  }

  lemma CutOut(s: seq<string>, i: nat)
    requires Distinct(s) && i < |s|
    ensures Distinct(s[..i] + s[i + 1..])
    ensures forall x :: x in s[..i] + s[i + 1..] <==> x in s && x != s[i]
  {
    var t := s[..i] + s[i + 1..];
    forall x ensures x in t <==> x in s && x != s[i] {
      if x in s && x != s[i] {
        var k :| 0 <= k < |s| && s[k] == x;
        assert t[if k < i then k else k - 1] == x;
      }
    }
  }

  lemma EdgesAfterCut(children: Adjacent, from: string, i: nat)
    requires i < |At(children, from)| && Distinct(At(children, from))
    ensures EdgesOf(children[from := At(children, from)[..i] + At(children, from)[i + 1..]])
            == EdgesOf(children) - {(from, At(children, from)[i])}
  {
    var kids := At(children, from);
    var children' := children[from := kids[..i] + kids[i + 1..]];
    CutOut(kids, i);
    forall a, b ensures (a, b) in EdgesOf(children') <==> (a, b) in EdgesOf(children) && (a, b) != (from, kids[i]) {
      EdgesAreKids(children', a);
      EdgesAreKids(children, a);
    }
  }

  lemma InverseAfterCut(children: Adjacent, parents: Adjacent, from: string, to: string, i: nat, j: nat)
    requires forall a, b :: b in At(children, a) <==> a in At(parents, b)
    requires NoRepeats(children) && NoRepeats(parents)
    requires i < |At(children, from)| && At(children, from)[i] == to
    requires j < |At(parents, to)| && At(parents, to)[j] == from
    ensures var children' := children[from := At(children, from)[..i] + At(children, from)[i + 1..]];
            var parents' := parents[to := At(parents, to)[..j] + At(parents, to)[j + 1..]];
            && (forall a, b :: b in At(children', a) <==> a in At(parents', b))
            && NoRepeats(children') && NoRepeats(parents')
  {
    var kids, folks := At(children, from), At(parents, to);
    CutOut(kids, i);
    CutOut(folks, j);
    var children', parents' := children[from := kids[..i] + kids[i + 1..]], parents[to := folks[..j] + folks[j + 1..]];
    forall a, b ensures b in At(children', a) <==> a in At(parents', b) {
      assert b in At(children, a) <==> a in At(parents, b);
      assert At(children', a) == if a == from then kids[..i] + kids[i + 1..] else At(children, a);
      assert At(parents', b) == if b == to then folks[..j] + folks[j + 1..] else At(parents, b);
    }
  }
}
