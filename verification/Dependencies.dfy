/** The dependency graph of a basic block: what it contains and why it orders all conflicts. */
module Dependencies {
  import opened Instructions
  import opened Digraph

  /** Instruction u is the last before n to write register r. */
  ghost predicate LastDefines(prog: seq<Instr>, n: nat, r: nat, u: nat)
    requires n <= |prog|
  {
    u < n && r in prog[u].defs && forall k :: u < k < n ==> r !in prog[k].defs
  }

  /** Instruction u is the last before n on channel c. */
  ghost predicate LastOn(prog: seq<Instr>, n: nat, c: Channel, u: nat)
    requires n <= |prog|
  {
    u < n && prog[u].channel == c && forall k :: u < k < n ==> prog[k].channel != c
  }

  /** n writes r, and u is the last to have written it or has read it. */
  ghost predicate DefDep(prog: seq<Instr>, u: nat, n: nat, r: nat)
    requires n <= |prog|
  {
    u < n && (LastDefines(prog, n, r, u) || r in prog[u].uses)
  }

  /** The dependencies of instruction n. */
  ghost predicate Dep(prog: seq<Instr>, u: nat, n: nat)
    requires n < |prog|
  {
    || (exists r :: r in prog[n].defs && DefDep(prog, u, n, r))
    || (exists r :: r in prog[n].uses && LastDefines(prog, n, r, u))
    || (prog[n].channel.On? && LastOn(prog, n, prog[n].channel, u))
  }

  ghost predicate Conflict(a: Instr, b: Instr) {
    !Independent(a, b)
  }

  /** Every dependency is a conflict between an earlier and a later instruction. */
  lemma DependencyIsConflict(prog: seq<Instr>, u: nat, n: nat)
    requires n < |prog| && Dep(prog, u, n)
    ensures u < n && Conflict(prog[u], prog[n])
  {
  }

  /** A numbering that grows along every dependency. */
  ghost predicate Grows(prog: seq<Instr>, rank: seq<int>) {
    |rank| == |prog| && forall u: nat, v: nat :: u < v < |prog| && Dep(prog, u, v) ==> rank[u] < rank[v]
  }

  lemma {:induction false} FindLastDefinition(prog: seq<Instr>, n: nat, r: nat, u: nat) returns (w: nat)
    requires u < n <= |prog| && r in prog[u].defs
    ensures u <= w < n && LastDefines(prog, n, r, w)
  {
    if r in prog[n - 1].defs {
      w := n - 1;
    } else {
      w := FindLastDefinition(prog, n - 1, r, u);
    }
  }

  lemma {:induction false} FindLastOn(prog: seq<Instr>, n: nat, u: nat) returns (w: nat)
    requires u < n <= |prog|
    ensures u <= w < n && LastOn(prog, n, prog[u].channel, w)
  {
    if prog[n - 1].channel == prog[u].channel {
      w := n - 1;
    } else {
      w := FindLastOn(prog, n - 1, u);
    }
  }

  lemma {:induction false} DefinitionsAscend(prog: seq<Instr>, rank: seq<int>, r: nat, u: nat, v: nat)
    requires Grows(prog, rank) && u < v < |prog| && r in prog[u].defs && r in prog[v].defs
    ensures rank[u] < rank[v]
    decreases v
  {
    var w := FindLastDefinition(prog, v, r, u);
    assert DefDep(prog, w, v, r) && Dep(prog, w, v);
    if w != u {
      DefinitionsAscend(prog, rank, r, u, w);
    }
  }

  lemma {:induction false} ChannelAscends(prog: seq<Instr>, rank: seq<int>, u: nat, v: nat)
    requires Grows(prog, rank) && u < v < |prog| && SameChannel(prog[u], prog[v])
    ensures rank[u] < rank[v]
    decreases v
  {
    var w := FindLastOn(prog, v, u);
    assert Dep(prog, w, v);
    if w != u {
      ChannelAscends(prog, rank, u, w);
    }
  }

  lemma UseAfterDefinition(prog: seq<Instr>, rank: seq<int>, r: nat, u: nat, v: nat)
    requires Grows(prog, rank) && u < v < |prog| && r in prog[u].defs && r in prog[v].uses
    ensures rank[u] < rank[v]
  {
    var w := FindLastDefinition(prog, v, r, u);
    assert Dep(prog, w, v);
    if w != u {
      DefinitionsAscend(prog, rank, r, u, w);
    }
  }

  /** Conflicting instructions are joined by dependencies, so every such numbering orders them as in the program. */
  lemma ConflictsAscend(prog: seq<Instr>, rank: seq<int>, u: nat, v: nat)
    requires Grows(prog, rank) && u < v < |prog| && Conflict(prog[u], prog[v])
    ensures rank[u] < rank[v]
  {
    if SameChannel(prog[u], prog[v]) {
      ChannelAscends(prog, rank, u, v);
    } else if r :| r in prog[u].defs && r in prog[v].defs {
      DefinitionsAscend(prog, rank, r, u, v);
    } else if r :| r in prog[u].defs && r in prog[v].uses {
      UseAfterDefinition(prog, rank, r, u, v);
    } else {
      var r :| r in prog[v].defs && r in prog[u].uses;
      assert DefDep(prog, u, v, r) && Dep(prog, u, v);
    }
  }

  /** The graph after the first n instructions: exactly their dependencies. */
  ghost predicate GraphOf(prog: seq<Instr>, n: nat, succ: seq<seq<nat>>, pred: seq<set<nat>>)
  {
    && n <= |prog| == |succ| == |pred|
    && (forall u, v {:trigger v in succ[u]} :: 0 <= u < |succ| && v in succ[u] ==> v < n && u in pred[v])
    && (forall v: nat, u: nat {:trigger Dep(prog, u, v)} {:trigger u in pred[v]} :: v < n ==>
        (u in pred[v] <==> Dep(prog, u, v)))
    && (forall v, u {:trigger u in pred[v]} :: 0 <= v < |pred| && u in pred[v] ==> u < |succ| && v in succ[u])
  }

  /** Depths never fall along a dependency and rise into an open instruction. */
  ghost predicate DepthsRise(prog: seq<Instr>, n: nat, depths: seq<nat>) {
    && n <= |prog| == |depths|
    && forall u: nat, v: nat {:trigger Dep(prog, u, v)} :: u < v < n && Dep(prog, u, v) ==>
      depths[u] <= depths[v] && (prog[v].open ==> depths[u] < depths[v])
  }
}
