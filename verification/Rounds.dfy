/** How many rounds a block needs: chains of open instructions and the depths that measure them. */
module Rounds {
  import opened Counting
  import opened Instructions
  import opened Dependencies

  ghost predicate Link(prog: seq<Instr>, p: seq<nat>, k: int)
    requires 0 <= k < |p| - 1
  {
    p[k] < p[k + 1] < |prog| && Dep(prog, p[k], p[k + 1])
  }

  /** A chain of instructions, each depending on the one before. */
  ghost predicate Chain(prog: seq<Instr>, p: seq<nat>) {
    p != [] && (forall k :: 0 <= k < |p| ==> p[k] < |prog|) && forall k :: 0 <= k < |p| - 1 ==> Link(prog, p, k)
  }

  ghost function OpenCount(prog: seq<Instr>, p: seq<nat>): nat
    requires forall k :: 0 <= k < |p| ==> p[k] < |prog|
  {
    if p == [] then 0 else OpenCount(prog, p[..|p| - 1]) + OpenBit(prog[p[|p| - 1]])
  }

  function OpenBit(i: Instr): nat {
    if i.open then 1 else 0
  }

  /** The depths at which open instructions sit: one round each. */
  ghost function OpenDepths(prog: seq<Instr>, depths: seq<nat>): set<nat>
    requires |depths| == |prog|
  {
    set v | 0 <= v < |prog| && prog[v].open :: depths[v]
  }

  ghost function ChainDepths(prog: seq<Instr>, depths: seq<nat>, p: seq<nat>): set<nat>
    requires |depths| == |prog| && forall k :: 0 <= k < |p| ==> p[k] < |prog|
  {
    if p == [] then {} else
      ChainDepths(prog, depths, p[..|p| - 1]) + if prog[p[|p| - 1]].open then {depths[p[|p| - 1]]} else {}
  }

  lemma {:induction false} ChainDepthsRise(prog: seq<Instr>, depths: seq<nat>, p: seq<nat>)
    requires DepthsRise(prog, |prog|, depths) && Chain(prog, p)
    ensures forall d :: d in ChainDepths(prog, depths, p) ==> d <= depths[p[|p| - 1]] && d in OpenDepths(prog, depths)
    ensures |ChainDepths(prog, depths, p)| == OpenCount(prog, p)
    decreases |p|
  {
    var n := |p| - 1;
    var q := p[..n];
    if n == 0 {
      assert q == [];
    } else {
      forall k | 0 <= k < |q| - 1 ensures Link(prog, q, k) {
        assert Link(prog, p, k);
      }
      ChainDepthsRise(prog, depths, q);
      assert Link(prog, p, n - 1);
      assert Dep(prog, p[n - 1], p[n]);
    }
  }

  /** No chain has more open instructions than there are rounds. */
  lemma ChainFitsRounds(prog: seq<Instr>, depths: seq<nat>, p: seq<nat>)
    requires DepthsRise(prog, |prog|, depths) && Chain(prog, p)
    ensures OpenCount(prog, p) <= |OpenDepths(prog, depths)|
  {
    ChainDepthsRise(prog, depths, p);
    SubsetCardinality(ChainDepths(prog, depths, p), OpenDepths(prog, depths));
  }

  /** The depth is no more than a dependency forces it to be. */
  ghost predicate TightAt(prog: seq<Instr>, v: nat, depths: seq<nat>)
    requires v < |prog| == |depths|
  {
    || depths[v] == OpenBit(prog[v])
    || exists u: nat {:trigger Dep(prog, u, v)} :: u < v && Dep(prog, u, v) && depths[v] == depths[u] + OpenBit(prog[v])
  }

  ghost predicate Tight(prog: seq<Instr>, n: nat, depths: seq<nat>) {
    n <= |prog| == |depths| && forall v :: 0 <= v < n ==> TightAt(prog, v, depths)
  }

  /** A chain that realises the depth of v. */
  lemma {:induction false} DeepestChain(prog: seq<Instr>, depths: seq<nat>, v: nat) returns (p: seq<nat>)
    requires Tight(prog, |prog|, depths) && v < |prog|
    ensures Chain(prog, p) && p[|p| - 1] == v && OpenCount(prog, p) == depths[v]
    decreases v
  {
    assert TightAt(prog, v, depths);
    if depths[v] == OpenBit(prog[v]) {
      p := [v];
      assert p[..0] == [];
    } else {
      var u: nat :| u < v && Dep(prog, u, v) && depths[v] == depths[u] + OpenBit(prog[v]);
      var q := DeepestChain(prog, depths, u);
      p := q + [v];
      assert p[..|p| - 1] == q;
      forall k | 0 <= k < |p| - 1 ensures Link(prog, p, k) {
        if k < |q| - 1 {
          assert Link(prog, q, k);
        }
      }
    }
  }

  lemma {:induction false} Highest(s: set<nat>) returns (m: nat)
    requires s != {}
    ensures m in s && forall x :: x in s ==> x <= m
    decreases |s|
  {
    var x :| x in s;
    if s == {x} {
      m := x;
    } else {
      var rest := s - {x};
      m := Highest(rest);
      assert forall y :: y in s ==> y in rest || y == x;
      m := if x > m then x else m;
    }
  }

  lemma CountBelow(s: set<nat>, m: nat)
    requires forall x :: x in s ==> 1 <= x <= m
    ensures |s| <= m
  {
    var t: set<int> := s;
    assert t <= Range(m + 1) - {0};
    SubsetCardinality(t, Range(m + 1) - {0});
  }

  /** Some chain needs every round. */
  lemma ChainNeedsRounds(prog: seq<Instr>, depths: seq<nat>) returns (p: seq<nat>)
    requires DepthsRise(prog, |prog|, depths) && Tight(prog, |prog|, depths) && OpenDepths(prog, depths) != {}
    ensures Chain(prog, p) && OpenCount(prog, p) == |OpenDepths(prog, depths)|
  {
    var d := Highest(OpenDepths(prog, depths));
    var v :| 0 <= v < |prog| && prog[v].open && depths[v] == d;
    p := DeepestChain(prog, depths, v);
    ChainFitsRounds(prog, depths, p);
    forall x | x in OpenDepths(prog, depths) ensures 1 <= x <= d {
      var w :| 0 <= w < |prog| && prog[w].open && depths[w] == x;
      assert TightAt(prog, w, depths);
    }
    CountBelow(OpenDepths(prog, depths), d);
  }
}
