/** Directed graphs and their topological order. */
module Digraph {
  import opened Counting

  /** succ[u] lists the successors of node u. */
  ghost predicate NodesInRange(succ: seq<seq<nat>>) {
    forall u, v :: 0 <= u < |succ| && v in succ[u] ==> v < |succ|
  }

  ghost predicate Edge(succ: seq<seq<nat>>, u: nat, v: nat) {
    u < |succ| && v in succ[u]
  }

  ghost predicate Step(succ: seq<seq<nat>>, p: seq<nat>, k: int)
    requires 0 <= k < |p| - 1
  {
    Edge(succ, p[k], p[k + 1])
  }

  ghost predicate Path(succ: seq<seq<nat>>, p: seq<nat>) {
    p != [] && forall k :: 0 <= k < |p| - 1 ==> Step(succ, p, k)
  }

  ghost predicate Cycle(succ: seq<seq<nat>>, c: seq<nat>) {
    Path(succ, c) && |c| >= 2 && c[0] == c[|c| - 1]
  }

  ghost predicate Acyclic(succ: seq<seq<nat>>) {
    forall c :: !Cycle(succ, c)
  }

  /** Every node once, every edge pointing forward. */
  ghost predicate TopologicalOrder(succ: seq<seq<nat>>, order: seq<nat>) {
    && Distinct(order)
    && (forall x: nat :: x in order <==> x < |succ|)
    && (forall i, j :: 0 <= i <= j < |order| ==> !Edge(succ, order[j], order[i]))
  }

  ghost predicate RanksEdges(succ: seq<seq<nat>>, rank: seq<int>) {
    forall u: nat, v: nat :: u < |rank| && v < |rank| && Edge(succ, u, v) ==> rank[u] < rank[v]
  }

  /** A number that grows along every edge grows along every path. */
  lemma {:induction false} RankGrows(succ: seq<seq<nat>>, rank: seq<int>, p: seq<nat>)
    requires Path(succ, p) && |p| >= 2
    requires forall i :: 0 <= i < |p| ==> p[i] < |rank|
    requires RanksEdges(succ, rank)
    ensures rank[p[0]] < rank[p[|p| - 1]]
  {
    var n := |p| - 1;
    assert Step(succ, p, n - 1);
    if n > 1 {
      var q := p[..n];
      forall k | 0 <= k < |q| - 1 ensures Step(succ, q, k) {
        assert Step(succ, p, k);
      }
      RankGrows(succ, rank, q);
    }
  }

  lemma RankedIsAcyclic(succ: seq<seq<nat>>, rank: seq<int>)
    requires NodesInRange(succ) && |rank| == |succ|
    requires RanksEdges(succ, rank)
    ensures Acyclic(succ)
  {
    forall c ensures !Cycle(succ, c) {
      if Cycle(succ, c) {
        PathInRange(succ, c);
        RankGrows(succ, rank, c);
        assert false;
      }
    }
  }

  lemma PathInRange(succ: seq<seq<nat>>, p: seq<nat>)
    requires NodesInRange(succ) && Path(succ, p) && |p| >= 2
    ensures forall i :: 0 <= i < |p| ==> p[i] < |succ|
  {
    forall i | 0 <= i < |p| ensures p[i] < |succ| {
      if i < |p| - 1 {
        assert Step(succ, p, i);
      } else {
        assert Step(succ, p, i - 1);
      }
    }
  }

  function Positions(order: seq<nat>, n: nat): (rank: seq<int>)
    requires forall x: nat :: x < n ==> x in order
    ensures |rank| == n
    ensures forall x: nat :: x < n ==> 0 <= rank[x] < |order| && order[rank[x]] == x
  {
    if n == 0 then [] else Positions(order, n - 1) + [PositionOf(order, n - 1)]
  }

  function PositionOf(order: seq<nat>, x: nat): (i: nat)
    requires x in order
    ensures i < |order| && order[i] == x
  {
    if order[0] == x then 0 else 1 + PositionOf(order[1..], x)
  }

  /** A graph with a topological order has no cycle. */
  lemma OrderedIsAcyclic(succ: seq<seq<nat>>, order: seq<nat>)
    requires NodesInRange(succ) && TopologicalOrder(succ, order)
    ensures Acyclic(succ)
  {
    var rank := Positions(order, |succ|);
    forall u: nat, v: nat | u < |rank| && v < |rank| && Edge(succ, u, v) ensures rank[u] < rank[v] {
      assert order[rank[u]] == u && order[rank[v]] == v;
    }
    RankedIsAcyclic(succ, rank);
  }
}

/** The mutable graph: successor lists and predecessor sets kept in step. */
module SparseGraph {
  import opened Digraph

  ghost function Without(s: seq<nat>, x: nat): (r: seq<nat>)
    ensures forall y :: y in r <==> y in s && y != x
  {
    if s == [] then [] else
      assert s == s[..|s| - 1] + [s[|s| - 1]];
      Without(s[..|s| - 1], x) + if s[|s| - 1] == x then [] else [s[|s| - 1]]
  }

  /** Successors and predecessors of the live nodes agree; a removed node keeps its own successor list,
      but nothing points to it any more. */
  ghost predicate InStep(succ: seq<seq<nat>>, pred: seq<set<nat>>, live: set<nat>) {
    && |succ| == |pred| && (forall x :: x in live ==> x < |succ|)
    && (forall x, y {:trigger y in succ[x]} :: x in live && y in succ[x] ==> y in live && x in pred[y])
    && (forall y, x {:trigger x in pred[y]} :: 0 <= y < |pred| && x in pred[y] ==> x in live && y in succ[x])
  }

  class SparseDiGraph {
    const n: nat
    var succ: seq<seq<nat>>
    var pred: seq<set<nat>>

    ghost predicate Sized()
      reads this
    {
      |succ| == |pred| == n
    }

    constructor (maxNodes: nat)
      ensures n == maxNodes && Sized()
      ensures succ == seq(n, _ => []) && pred == seq(n, _ => {})
    {
      n := maxNodes;
      succ := seq(maxNodes, _ => []);
      pred := seq(maxNodes, _ => {});
    }

    /** add_edge: an edge that is there already is not added twice. */
    method AddEdge(i: nat, j: nat)
      requires Sized() && i < n && j < n
      modifies this
      ensures Sized()
      ensures succ == (if j in old(succ[i]) then old(succ) else old(succ)[i := old(succ[i]) + [j]])
      ensures pred == (if j in old(succ[i]) then old(pred) else old(pred)[j := old(pred[j]) + {i}])
    {
      if j !in succ[i] {
        pred := pred[j := pred[j] + {i}];
        succ := succ[i := succ[i] + [j]];
      }
    }

    method RemoveKey(i: nat, j: nat)
      requires Sized() && i < n
      modifies this`succ
      ensures Sized() && succ == old(succ)[i := Without(old(succ[i]), j)]
    {
      var kept: seq<nat> := [];
      for k := 0 to |succ[i]|
        invariant kept == Without(succ[i][..k], j)
      {
        assert succ[i][..k + 1][..k] == succ[i][..k];
        if succ[i][k] != j {
          kept := kept + [succ[i][k]];
        }
      }
      assert succ[i][..|succ[i]|] == succ[i];
      succ := succ[i := kept];
    }

    method RemoveEdge(i: nat, j: nat)
      requires Sized() && i < n && j < n && j in succ[i] && i in pred[j]
      modifies this
      ensures Sized()
      ensures succ == old(succ)[i := Without(old(succ[i]), j)]
      ensures pred == old(pred)[j := old(pred[j]) - {i}]
    {
      RemoveKey(i, j);
      pred := pred[j := pred[j] - {i}];
    }

    /** remove_node: the node disappears from its neighbours; its own successor list stays. */
    method RemoveNode(i: nat)
      requires Sized() && i < n && i !in succ[i]
      requires forall v :: v in succ[i] ==> v < n && i in pred[v]
      requires forall v :: v in pred[i] ==> v < n && i in succ[v]
      modifies this
      ensures Sized()
      ensures forall x :: 0 <= x < n ==> succ[x] == if x in old(pred[i]) then Without(old(succ[x]), i) else old(succ[x])
      ensures forall y :: 0 <= y < n ==>
        pred[y] == if y == i then {} else if y in old(succ[i]) then old(pred[y]) - {i} else old(pred[y])
    {
      var succI, predI := succ[i], pred[i];
      for k := 0 to |succI|
        invariant Sized() && succ == old(succ)
        invariant forall y :: 0 <= y < n ==> pred[y] == if y in succI[..k] then old(pred[y]) - {i} else old(pred[y])
      {
        assert succI[k] in succI && succI[..k + 1] == succI[..k] + [succI[k]];
        pred := pred[succI[k] := pred[succI[k]] - {i}];
      }
      assert succI[..|succI|] == succI;
      var todo := predI;
      while todo != {}
        invariant Sized() && todo <= predI
        invariant forall y :: 0 <= y < n ==> pred[y] == if y in succI then old(pred[y]) - {i} else old(pred[y])
        invariant forall x :: 0 <= x < n ==>
          succ[x] == if x in predI - todo then Without(old(succ[x]), i) else old(succ[x])
        decreases |todo|
      {
        var v :| v in todo;
        RemoveKey(v, i);
        todo := todo - {v};
      }
      pred := pred[i := {}];
    }
  }
}

/** Iterative depth-first topological sort. */
module TopologicalSorting {
  import opened Counting
  import opened Digraph

  datatype SortResult = Sorted(order: seq<nat>) | CycleFound(at: nat)

  // ----- The state of the search -----

  /** All successors of the node at position i were explored before it. */
  ghost predicate Settled(succ: seq<seq<nat>>, order: seq<nat>, i: nat)
    requires i < |order|
  {
    order[i] < |succ| && forall v :: v in succ[order[i]] ==> v in order[..i]
  }

  /** `order` lists the explored nodes, `path` those seen but not explored. */
  ghost predicate Coherent(succ: seq<seq<nat>>, seen: set<nat>, explored: set<nat>, order: seq<nat>, path: seq<nat>) {
    && Distinct(order)
    && (forall i :: 0 <= i < |order| ==> Settled(succ, order, i))
    && (forall x :: x in explored <==> x in order)
    && (forall x :: x in seen <==> x in order || x in path)
    && (forall x :: x in path ==> x !in order && x < |succ|)
  }

  ghost predicate Increasing(pos: seq<nat>) {
    forall i, j :: 0 <= i < j < |pos| ==> pos[i] < pos[j]
  }

  /** Node i of the path lies on the fringe at pos[i] for the last time, and everything between it and the next
      path node is one of its successors; those of its successors that are not above it are explored. */
  ghost predicate OnFringe(succ: seq<seq<nat>>, explored: set<nat>, fringe: seq<nat>, path: seq<nat>, pos: seq<nat>,
                           i: nat)
    requires i < |path| == |pos|
  {
    && pos[i] < |fringe| && fringe[pos[i]] == path[i]
    && path[i] !in fringe[pos[i] + 1..]
    && (forall t :: pos[i] < t < |fringe| && (i + 1 < |pos| ==> t <= pos[i + 1]) ==> Edge(succ, path[i], fringe[t]))
    && (forall v :: Edge(succ, path[i], v) ==> v in explored || v in fringe[pos[i] + 1..])
  }

  ghost predicate Trail(succ: seq<seq<nat>>, explored: set<nat>, fringe: seq<nat>, path: seq<nat>, pos: seq<nat>) {
    && |pos| == |path| && Increasing(pos)
    && (forall i :: 0 <= i < |path| ==> OnFringe(succ, explored, fringe, path, pos, i))
    && (forall t :: 0 <= t < |fringe| ==> fringe[t] < |succ|)
  }

  ghost predicate Searching(succ: seq<seq<nat>>, seen: set<nat>, explored: set<nat>, order: seq<nat>, fringe: seq<nat>,
                            path: seq<nat>, pos: seq<nat>) {
    Coherent(succ, seen, explored, order, path) && Trail(succ, explored, fringe, path, pos)
  }

  // ----- The steps -----

  /** The path's nodes are joined by edges. */
  lemma TrailIsPath(succ: seq<seq<nat>>, explored: set<nat>, fringe: seq<nat>, path: seq<nat>, pos: seq<nat>)
    requires Trail(succ, explored, fringe, path, pos) && path != []
    ensures Path(succ, path)
  {
    forall k | 0 <= k < |path| - 1 ensures Step(succ, path, k) {
      assert OnFringe(succ, explored, fringe, path, pos, k);
      assert OnFringe(succ, explored, fringe, path, pos, k + 1);
      assert Edge(succ, path[k], fringe[pos[k + 1]]);
    }
  }

  /** A path node on top of the fringe is the last of the path, and all its successors are explored. */
  lemma TopOfTrail(succ: seq<seq<nat>>, explored: set<nat>, fringe: seq<nat>, path: seq<nat>, pos: seq<nat>)
    requires Trail(succ, explored, fringe, path, pos) && fringe != [] && fringe[|fringe| - 1] in path
    ensures path[|path| - 1] == fringe[|fringe| - 1] && pos[|path| - 1] == |fringe| - 1
    ensures forall v :: Edge(succ, path[|path| - 1], v) ==> v in explored
  {
    var w := fringe[|fringe| - 1];
    var i :| 0 <= i < |path| && path[i] == w;
    assert OnFringe(succ, explored, fringe, path, pos, i);
    assert OnFringe(succ, explored, fringe, path, pos, |path| - 1);
  }

  /** An explored node on top of the fringe is dropped. */
  lemma Drop(succ: seq<seq<nat>>, seen: set<nat>, explored: set<nat>, order: seq<nat>, fringe: seq<nat>, path: seq<nat>,
             pos: seq<nat>)
    requires Searching(succ, seen, explored, order, fringe, path, pos) && fringe != [] &&
      fringe[|fringe| - 1] in explored
    ensures Searching(succ, seen, explored, order, fringe[..|fringe| - 1], path, pos)
  {
    var fringe' := fringe[..|fringe| - 1];
    forall i | 0 <= i < |path| ensures OnFringe(succ, explored, fringe', path, pos, i) {
      assert OnFringe(succ, explored, fringe, path, pos, i);
      assert path[i] in path;
      var rest := fringe[pos[i] + 1..];
      assert rest == fringe'[pos[i] + 1..] + [fringe[|fringe| - 1]];
    }
  }

  /** A new node enters the path when its unexplored successors are put on the fringe. */
  lemma Enter(succ: seq<seq<nat>>, seen: set<nat>, explored: set<nat>, order: seq<nat>, fringe: seq<nat>,
              path: seq<nat>, pos: seq<nat>, newNodes: seq<nat>)
    requires NodesInRange(succ) && Searching(succ, seen, explored, order, fringe, path, pos) && fringe != []
    requires fringe[|fringe| - 1] !in seen
    requires forall x :: x in newNodes <==> x in succ[fringe[|fringe| - 1]] && x !in explored
    requires forall x :: x in newNodes ==> x !in seen && x != fringe[|fringe| - 1]
    ensures Searching(succ, seen + {fringe[|fringe| - 1]}, explored, order, fringe + newNodes,
                      path + [fringe[|fringe| - 1]], pos + [|fringe| - 1])
  {
    var top := |fringe| - 1;
    var w := fringe[top];
    var fringe', path', pos' := fringe + newNodes, path + [w], pos + [top];
    forall i | 0 <= i < |path'| ensures OnFringe(succ, explored, fringe', path', pos', i) {
      if i < |path| {
        assert OnFringe(succ, explored, fringe, path, pos, i);
        assert path[i] in path;
        assert fringe'[pos[i] + 1..] == fringe[pos[i] + 1..] + newNodes;
        if i + 1 < |path| {
          assert OnFringe(succ, explored, fringe, path, pos, i + 1);
        }
      } else {
        assert fringe'[top + 1..] == newNodes;
        forall t | top < t < |fringe'| ensures Edge(succ, w, fringe'[t]) {
          assert fringe'[t] == newNodes[t - |fringe|] && fringe'[t] in newNodes;
        }
      }
    }
    forall i, j | 0 <= i < j < |pos'| ensures pos'[i] < pos'[j] {
      assert OnFringe(succ, explored, fringe, path, pos, i);
      assert path[i] in path;
    }
    forall t | 0 <= t < |fringe'| ensures fringe'[t] < |succ| {
      assert t >= |fringe| ==> fringe'[t] in newNodes;
    }
    assert Coherent(succ, seen + {w}, explored, order, path');
  }

  /** A path node whose successors are all explored becomes explored itself. */
  lemma Finish(succ: seq<seq<nat>>, seen: set<nat>, explored: set<nat>, order: seq<nat>, fringe: seq<nat>,
               path: seq<nat>, pos: seq<nat>)
    requires Searching(succ, seen, explored, order, fringe, path, pos) && fringe != []
    requires path != [] && path[|path| - 1] == fringe[|fringe| - 1] && pos[|path| - 1] == |fringe| - 1
    requires forall v :: Edge(succ, path[|path| - 1], v) ==> v in explored
    ensures Searching(succ, seen, explored + {fringe[|fringe| - 1]}, order + [fringe[|fringe| - 1]],
                      fringe[..|fringe| - 1],
                      path[..|path| - 1], pos[..|path| - 1])
  {
    var w := fringe[|fringe| - 1];
    var fringe', path', pos', order' := fringe[..|fringe| - 1], path[..|path| - 1], pos[..|path| - 1], order + [w];
    assert w in path && path == path' + [w];
    forall i | 0 <= i < |path'| ensures OnFringe(succ, explored + {w}, fringe', path', pos', i) && path'[i] != w {
      assert OnFringe(succ, explored, fringe, path, pos, i);
      assert fringe[pos[i] + 1..] == fringe'[pos[i] + 1..] + [w];
    }
    forall i | 0 <= i < |order'| ensures Settled(succ, order', i) {
      if i < |order| {
        assert Settled(succ, order, i);
        assert order'[..i] == order[..i];
      } else {
        assert order'[..i] == order;
      }
    }
  }

  lemma Bounded(succ: seq<seq<nat>>, seen: set<nat>, explored: set<nat>, order: seq<nat>, path: seq<nat>)
    requires Coherent(succ, seen, explored, order, path)
    ensures |seen| <= |succ| && |explored| <= |succ|
  {
    forall x | x in seen ensures x < |succ| {
      if x in order {
        var i :| 0 <= i < |order| && order[i] == x;
        assert Settled(succ, order, i);
      }
    }
    forall x | x in explored ensures x in seen {
    }
    var s: set<int>, e: set<int> := seen, explored;
    SubsetCardinality(s, Range(|succ|));
    SubsetCardinality(e, Range(|succ|));
  }

  lemma PathSuffix(succ: seq<seq<nat>>, p: seq<nat>, i: nat, x: nat)
    requires Path(succ, p) && i < |p| && Edge(succ, p[|p| - 1], x)
    ensures Path(succ, p[i..] + [x])
  {
    var q := p[i..] + [x];
    forall k | 0 <= k < |q| - 1 ensures Step(succ, q, k) {
      if k < |q| - 2 {
        assert Step(succ, p, i + k);
      }
    }
  }

  /** A successor that was seen but not explored closes a cycle. */
  lemma BackEdge(succ: seq<seq<nat>>, seen: set<nat>, explored: set<nat>, order: seq<nat>, fringe: seq<nat>,
                 path: seq<nat>, pos: seq<nat>, x: nat)
    requires Searching(succ, seen, explored, order, fringe, path, pos) && fringe != []
    requires fringe[|fringe| - 1] !in seen && Edge(succ, fringe[|fringe| - 1], x)
    requires x !in explored && (x in seen || x == fringe[|fringe| - 1])
    ensures exists c :: Cycle(succ, c) && c[0] == x
  {
    var w := fringe[|fringe| - 1];
    var p := path + [w];
    if path != [] {
      TrailIsPath(succ, explored, fringe, path, pos);
      assert OnFringe(succ, explored, fringe, path, pos, |path| - 1);
      assert path[|path| - 1] in path;
      PathSuffix(succ, path, 0, w);
      assert path[0..] == path;
    }
    assert x in p;
    var i :| 0 <= i < |p| && p[i] == x;
    PathSuffix(succ, p, i, x);
    assert Cycle(succ, p[i..] + [x]);
  }

  // ----- The algorithm -----

  /** The children that are not explored, unless one of them is on the current path. */
  method NewNodes(children: seq<nat>, seen: set<nat>, explored: set<nat>)
    returns (cycle: bool, at: nat, newNodes: seq<nat>)
    ensures cycle ==> at in children && at in seen && at !in explored
    ensures !cycle ==> forall x :: x in newNodes <==> x in children && x !in explored
    ensures !cycle ==> forall x :: x in newNodes ==> x !in seen
    ensures (forall x :: x in children ==> x in explored) ==> !cycle && newNodes == []
  {
    cycle, at, newNodes := false, 0, [];
    for i := 0 to |children|
      invariant !cycle
      invariant forall x :: x in newNodes <==> x in children[..i] && x !in explored
      invariant forall x :: x in newNodes ==> x !in seen
      invariant (forall x :: x in children ==> x in explored) ==> newNodes == []
    {
      var n := children[i];
      assert children[..i + 1] == children[..i] + [n];
      if n !in explored {
        if n in seen {
          return true, n, [];
        }
        newNodes := newNodes + [n];
      }
    }
    assert children[..|children|] == children;
  }

  /** A seen top of the fringe has nothing left to visit. */
  lemma SeenTop(succ: seq<seq<nat>>, seen: set<nat>, explored: set<nat>, order: seq<nat>, fringe: seq<nat>,
                path: seq<nat>, pos: seq<nat>)
    requires Searching(succ, seen, explored, order, fringe, path, pos) && fringe != []
    requires fringe[|fringe| - 1] in seen && fringe[|fringe| - 1] !in explored
    ensures path != [] && path[|path| - 1] == fringe[|fringe| - 1] && pos[|path| - 1] == |fringe| - 1
    ensures forall x :: x in succ[fringe[|fringe| - 1]] ==> x in explored
  {
    TopOfTrail(succ, explored, fringe, path, pos);
    forall x | x in succ[fringe[|fringe| - 1]] ensures x in explored {
      assert Edge(succ, path[|path| - 1], x);
    }
  }

  /** Looks at the unexplored top of the fringe: its unexplored successors go on the fringe, or it is finished. */
  method Visit(succ: seq<seq<nat>>, seen: set<nat>, explored: set<nat>, order: seq<nat>, fringe: seq<nat>,
               ghost path: seq<nat>, ghost pos: seq<nat>)
    returns (cycle: bool, at: nat, seen': set<nat>, explored': set<nat>, order': seq<nat>, fringe': seq<nat>,
             ghost path': seq<nat>, ghost pos': seq<nat>)
    requires NodesInRange(succ) && Searching(succ, seen, explored, order, fringe, path, pos)
    requires fringe != [] && fringe[|fringe| - 1] !in explored
    ensures cycle ==> exists c :: Cycle(succ, c) && c[0] == at
    ensures !cycle ==> Searching(succ, seen', explored', order', fringe', path', pos')
    ensures !cycle ==> seen <= seen' && explored <= explored' && (seen < seen' || explored < explored')
    ensures !cycle ==> if fringe' == fringe[..|fringe| - 1] then order' == order + [fringe[|fringe| - 1]]
                       else order' == order && fringe <= fringe'
  {
    var top := |fringe| - 1;
    var w := fringe[top];
    var newNodes;
    cycle, at, newNodes := NewNodes(succ[w], seen + {w}, explored);
    seen', explored', order', fringe', path', pos' := seen + {w}, explored, order, fringe, path, pos;
    if w in seen {
      SeenTop(succ, seen, explored, order, fringe, path, pos);
    } else if cycle {
      BackEdge(succ, seen, explored, order, fringe, path, pos, at);
      return;
    } else {
      Enter(succ, seen, explored, order, fringe, path, pos, newNodes);
      path', pos', fringe' := path + [w], pos + [top], fringe + newNodes;
    }
    if newNodes == [] {
      assert seen' == if w in seen then seen else seen + {w};
      assert fringe' == fringe;
      Finish(succ, seen', explored, order, fringe, path', pos');
      explored', order', fringe' := explored + {w}, order + [w], fringe[..top];
      path', pos' := path'[..|path'| - 1], pos'[..|pos'| - 1];
    }
  }

  lemma FringeNotEmpty(succ: seq<seq<nat>>, explored: set<nat>, fringe: seq<nat>, path: seq<nat>, pos: seq<nat>)
    requires Trail(succ, explored, fringe, path, pos) && path != []
    ensures fringe != []
  {
    assert OnFringe(succ, explored, fringe, path, pos, 0);
  }

  lemma ProperSubset(a: set<nat>, b: set<nat>)
    ensures a <= b ==> |a| <= |b|
    ensures a < b ==> |a| < |b|
  {
    if a <= b {
      SubsetCardinality(a, b);
    }
  }

  /** Everything reachable from v becomes explored. */
  method Explore(succ: seq<seq<nat>>, v: nat, seen: set<nat>, explored: set<nat>, order: seq<nat>)
    returns (cycle: bool, at: nat, seen': set<nat>, explored': set<nat>, order': seq<nat>)
    requires NodesInRange(succ) && v < |succ| && v !in explored && Searching(succ, seen, explored, order, [], [], [])
    ensures cycle ==> exists c :: Cycle(succ, c) && c[0] == at
    ensures !cycle ==> Searching(succ, seen', explored', order', [], [], []) && order <= order' && v in order'
  {
    cycle, at, seen', explored', order' := false, 0, seen, explored, order;
    var fringe := [v];
    ghost var path: seq<nat>, pos: seq<nat> := [], [];
    Bounded(succ, seen', explored', order', path);
    while fringe != []
      invariant Searching(succ, seen', explored', order', fringe, path, pos) && !cycle
      invariant if fringe == [] then v in order' else fringe[0] == v
      invariant order <= order' && |seen'| <= |succ| && |explored'| <= |succ|
      decreases 2 * |succ| - |seen'| - |explored'|, |fringe|
    {
      var top := |fringe| - 1;
      if fringe[top] in explored' {
        Drop(succ, seen', explored', order', fringe, path, pos);
        fringe := fringe[..top];
      } else {
        ghost var seen0, explored0 := seen', explored';
        cycle, at, seen', explored', order', fringe, path, pos :=
          Visit(succ, seen', explored', order', fringe, path, pos);
        if cycle {
          return;
        }
        Bounded(succ, seen', explored', order', path);
        ProperSubset(seen0, seen');
        ProperSubset(explored0, explored');
      }
    }
    if path != [] {
      FringeNotEmpty(succ, explored', fringe, path, pos);
      assert false;
    }
  }

  ghost function Reversed(s: seq<nat>): (r: seq<nat>)
    ensures |r| == |s| && forall i :: 0 <= i < |s| ==> r[i] == s[|s| - 1 - i]
  {
    seq(|s|, i requires 0 <= i < |s| => s[|s| - 1 - i])
  }

  /** The explored nodes in reverse are in topological order. */
  lemma ReversedIsTopological(succ: seq<seq<nat>>, seen: set<nat>, explored: set<nat>, order: seq<nat>)
    requires Coherent(succ, seen, explored, order, []) && forall x: nat :: x < |succ| ==> x in order
    ensures TopologicalOrder(succ, Reversed(order))
  {
    var r := Reversed(order);
    forall i, j | 0 <= i <= j < |r| ensures !Edge(succ, r[j], r[i]) {
      assert Settled(succ, order, |order| - 1 - j);
    }
    forall x: nat ensures x in r <==> x < |succ| {
      if x in r {
        var i :| 0 <= i < |r| && r[i] == x;
        assert Settled(succ, order, |order| - 1 - i);
      }
      if x < |succ| {
        assert x in order;
        var i :| 0 <= i < |order| && order[i] == x;
        assert r[|order| - 1 - i] == x;
      }
    }
  }

  /** topological_sort: succeeds exactly on graphs without a cycle, and otherwise names a node on one. */
  method TopologicalSort(succ: seq<seq<nat>>) returns (r: SortResult)
    requires NodesInRange(succ)
    ensures r.Sorted? <==> Acyclic(succ)
    ensures r.Sorted? ==> TopologicalOrder(succ, r.order)
    ensures r.CycleFound? ==> exists c :: Cycle(succ, c) && c[0] == r.at
  {
    var seen: set<nat>, explored: set<nat>, order: seq<nat> := {}, {}, [];
    var v := |succ|;
    while v > 0
      invariant v <= |succ| && Searching(succ, seen, explored, order, [], [], [])
      invariant forall x :: v <= x < |succ| ==> x in order
    {
      v := v - 1;
      if v in explored {
        continue;
      }
      var cycle, at;
      ghost var before := order;
      cycle, at, seen, explored, order := Explore(succ, v, seen, explored, order);
      if cycle {
        return CycleFound(at);
      }
      assert forall x :: x in before ==> x in order;
    }
    ReversedIsTopological(succ, seen, explored, order);
    OrderedIsAcyclic(succ, Reversed(order));
    return Sorted(seq(|order|, i requires 0 <= i < |order| => order[|order| - 1 - i]));
  }
}
