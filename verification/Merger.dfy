/** The scheduler of a basic block: dependency graph, depths, merging, topological sort. */
module Scheduling {
  import opened Counting
  import opened Instructions
  import opened Digraph
  import opened SparseGraph
  import opened Dependencies
  import opened Placement
  import opened Replay
  import opened Rounds
  import opened Shortcuts
  import opened Merging
  import opened TopologicalSorting

  /** While the dependencies of n are entered: `into` are its predecessors so far. */
  ghost predicate Linked(prog: seq<Instr>, n: nat, succ0: seq<seq<nat>>, pred0: seq<set<nat>>, depths0: seq<nat>,
                         into: set<nat>, succ: seq<seq<nat>>, pred: seq<set<nat>>, depths: seq<nat>)
  {
    && n < |prog| == |succ0| == |pred0| == |depths0| == |succ| == |pred| == |depths|
    && (forall u :: u in into ==> u < n)
    && (forall v :: 0 <= v < |pred| ==> pred[v] == if v == n then into else pred0[v])
    && (forall u :: 0 <= u < |succ| ==> succ[u] == if u in into then succ0[u] + [n] else succ0[u])
    && (forall u :: 0 <= u < |depths| && u != n ==> depths[u] == depths0[u])
    && (forall u :: u in into ==> depths0[u] <= depths[n])
    && (depths[n] == 0 || exists u :: u in into && depths[n] == depths0[u])
  }

  /** The tables of last definitions, readers and last instructions on a channel describe the first n instructions. */
  ghost predicate DefTable(prog: seq<Instr>, n: nat, lastDef: map<nat, nat>)
    requires n <= |prog|
  {
    && (forall r :: r in lastDef ==> LastDefines(prog, n, r, lastDef[r]))
    && (forall r, k :: 0 <= k < n && r in prog[k].defs ==> r in lastDef)
  }

  function ReadersOf(lastRead: map<nat, seq<nat>>, r: nat): seq<nat> {
    if r in lastRead then lastRead[r] else []
  }

  ghost predicate ReadTable(prog: seq<Instr>, n: nat, lastRead: map<nat, seq<nat>>)
    requires n <= |prog|
  {
    forall r: nat, k: nat {:trigger k in ReadersOf(lastRead, r)} :: k in ReadersOf(lastRead, r) <==>
      k < n && r in prog[k].uses
  }

  /** `last` holds the last instruction on every channel used so far. */
  ghost predicate ChannelTable(prog: seq<Instr>, n: nat, last: map<nat, nat>)
    requires n <= |prog|
  {
    && (forall c :: c in last ==> LastOn(prog, n, On(c), last[c]))
    && (forall k :: 0 <= k < n && prog[k].channel.On? ==> prog[k].channel.id in last)
  }

  /** The last instruction on the channel, -1 for none. */
  function LastIn(last: map<nat, nat>, c: Channel): int {
    if c.On? && c.id in last then last[c.id] else -1
  }

  /** The table after instruction n. */
  ghost function Noted(last: map<nat, nat>, c: Channel, n: nat): map<nat, nat> {
    if c.On? then last[c.id := n] else last
  }

  ghost function Joined(into: set<nat>, i: int): set<nat> {
    if i >= 0 then into + {i} else into
  }

  // ----- Entering one instruction -----

  /** The dependencies of n through its first k results and first l inputs. */
  ghost predicate PartDep(prog: seq<Instr>, u: nat, n: nat, k: nat, l: nat)
    requires n < |prog| && k <= |prog[n].defs| && l <= |prog[n].uses|
  {
    || (exists r :: r in prog[n].defs[..k] && DefDep(prog, u, n, r))
    || (exists r :: r in prog[n].uses[..l] && LastDefines(prog, n, r, u))
  }

  ghost predicate IntoPart(prog: seq<Instr>, n: nat, k: nat, l: nat, into: set<nat>)
    requires n < |prog| && k <= |prog[n].defs| && l <= |prog[n].uses|
  {
    forall u :: u in into <==> PartDep(prog, u, n, k, l)
  }

  ghost function Source(lastDef: map<nat, nat>, reg: nat, n: nat): set<nat> {
    if reg in lastDef && lastDef[reg] != n then {lastDef[reg]} else {}
  }

  ghost function Readers(lastRead: map<nat, seq<nat>>, reg: nat): set<nat> {
    set m | m in ReadersOf(lastRead, reg)
  }

  /** lastDef after the registers in defs were written by n. */
  ghost predicate Rewritten(lastDef0: map<nat, nat>, lastDef: map<nat, nat>, defs: seq<nat>, n: nat) {
    && (forall r :: r in lastDef <==> r in lastDef0 || r in defs)
    && (forall r :: r in lastDef ==> lastDef[r] == if r in defs then n else lastDef0[r])
  }

  lemma RewrittenGrows(lastDef0: map<nat, nat>, lastDef: map<nat, nat>, defs: seq<nat>, k: nat, n: nat)
    requires k < |defs| && Rewritten(lastDef0, lastDef, defs[..k], n)
    ensures Rewritten(lastDef0, lastDef[defs[k] := n], defs[..k + 1], n)
  {
    assert defs[..k + 1] == defs[..k] + [defs[k]];
  }

  /** What is linked for one written register depends on it; nothing is missed if it was not written before. */
  lemma WriteSources(prog: seq<Instr>, n: nat, defs: seq<nat>, r: nat, u: nat, lastDef0: map<nat, nat>,
                     lastDef: map<nat, nat>, lastRead: map<nat, seq<nat>>)
    requires n < |prog| && DefTable(prog, n, lastDef0) && ReadTable(prog, n, lastRead)
    requires Rewritten(lastDef0, lastDef, defs, n)
    ensures u in Source(lastDef, r, n) + Readers(lastRead, r) ==> DefDep(prog, u, n, r)
    ensures DefDep(prog, u, n, r) && r !in defs ==> u in Source(lastDef, r, n) + Readers(lastRead, r)
  {
    assert u in ReadersOf(lastRead, r) <==> u < n && r in prog[u].uses;
  }

  lemma PartStep(prog: seq<Instr>, n: nat, k: nat, u: nat)
    requires n < |prog| && k < |prog[n].defs|
    ensures PartDep(prog, u, n, k + 1, 0) <==> PartDep(prog, u, n, k, 0) || DefDep(prog, u, n, prog[n].defs[k])
    ensures prog[n].defs[k] in prog[n].defs[..k] && DefDep(prog, u, n, prog[n].defs[k]) ==> PartDep(prog, u, n, k, 0)
  {
    hide DefDep;
    assert prog[n].defs[..k + 1] == prog[n].defs[..k] + [prog[n].defs[k]];
  }

  lemma WriteStep(prog: seq<Instr>, n: nat, k: nat, into: set<nat>, lastDef0: map<nat, nat>, lastDef: map<nat, nat>,
                  lastRead: map<nat, seq<nat>>)
    requires n < |prog| && k < |prog[n].defs| && IntoPart(prog, n, k, 0, into)
    requires DefTable(prog, n, lastDef0) && ReadTable(prog, n, lastRead) &&
      Rewritten(lastDef0, lastDef, prog[n].defs[..k], n)
    ensures IntoPart(prog, n, k + 1, 0, into + Source(lastDef, prog[n].defs[k], n) + Readers(lastRead, prog[n].defs[k]))
  {
    hide PartDep, DefDep, DefTable, ReadTable, Rewritten, Source, Readers;
    var r := prog[n].defs[k];
    forall u: nat
      ensures u in into + Source(lastDef, r, n) + Readers(lastRead, r) <==> PartDep(prog, u, n, k + 1, 0)
    {
      PartStep(prog, n, k, u);
      WriteSources(prog, n, prog[n].defs[..k], r, u, lastDef0, lastDef, lastRead);
    }
  }

  lemma ReadStep(prog: seq<Instr>, n: nat, l: nat, into: set<nat>, lastDef0: map<nat, nat>, lastDef: map<nat, nat>)
    requires n < |prog| && l < |prog[n].uses| && IntoPart(prog, n, |prog[n].defs|, l, into)
    requires DefTable(prog, n, lastDef0) && Rewritten(lastDef0, lastDef, prog[n].defs, n)
    ensures IntoPart(prog, n, |prog[n].defs|, l + 1, into + Source(lastDef, prog[n].uses[l], n))
  {
    var r, defs, uses := prog[n].uses[l], prog[n].defs, prog[n].uses;
    assert uses[..l + 1] == uses[..l] + [r] && defs[..|defs|] == defs;
    var into' := into + Source(lastDef, r, n);
    forall u: nat ensures u in into' <==> PartDep(prog, u, n, |defs|, l + 1) {
      if LastDefines(prog, n, r, u) && r in defs {
        assert DefDep(prog, u, n, r);
        assert PartDep(prog, u, n, |defs|, l);
      }
      assert u in Source(lastDef, r, n) ==> LastDefines(prog, n, r, u);
    }
  }

  ghost predicate ReadSoFar(prog: seq<Instr>, n: nat, uses: seq<nat>, lastRead: map<nat, seq<nat>>)
    requires n <= |prog|
  {
    forall r: nat, k: nat {:trigger k in ReadersOf(lastRead, r)} ::
      k in ReadersOf(lastRead, r) <==> (k < n && r in prog[k].uses) || (k == n && r in uses)
  }

  lemma ReadTableGrows(prog: seq<Instr>, n: nat, lastRead: map<nat, seq<nat>>)
    requires n < |prog| && ReadSoFar(prog, n, prog[n].uses, lastRead)
    ensures ReadTable(prog, n + 1, lastRead)
  {
  }

  lemma ReadSnoc(prog: seq<Instr>, n: nat, uses: seq<nat>, reg: nat, lastRead: map<nat, seq<nat>>)
    requires n <= |prog| && ReadSoFar(prog, n, uses, lastRead)
    ensures ReadSoFar(prog, n, uses + [reg], lastRead[reg := ReadersOf(lastRead, reg) + [n]])
  {
    var lastRead' := lastRead[reg := ReadersOf(lastRead, reg) + [n]];
    forall r: nat, k: nat {:trigger k in ReadersOf(lastRead', r)}
      ensures k in ReadersOf(lastRead', r) <==> (k < n && r in prog[k].uses) || (k == n && r in uses + [reg])
    {
      assert k in ReadersOf(lastRead', r) <==> k in ReadersOf(lastRead, r) || (r == reg && k == n);
    }
  }

  /** Whatever the tables hold comes before n, apart from what n itself has written. */
  lemma TablesBelow(prog: seq<Instr>, n: nat, lastDef0: map<nat, nat>, lastDef: map<nat, nat>, defs: seq<nat>,
                    lastRead: map<nat, seq<nat>>, reg: nat)
    requires n <= |prog| && DefTable(prog, n, lastDef0) && Rewritten(lastDef0, lastDef, defs, n) &&
      ReadTable(prog, n, lastRead)
    ensures reg in lastDef ==> lastDef[reg] <= n
    ensures forall m :: m in ReadersOf(lastRead, reg) ==> m < n
  {
  }

  lemma DefTableGrows(prog: seq<Instr>, n: nat, lastDef0: map<nat, nat>, lastDef: map<nat, nat>)
    requires n < |prog| && DefTable(prog, n, lastDef0) && Rewritten(lastDef0, lastDef, prog[n].defs, n)
    ensures DefTable(prog, n + 1, lastDef)
  {
  }

  lemma IntoIsDep(prog: seq<Instr>, n: nat, into: set<nat>, last: map<nat, nat>)
    requires n < |prog| && IntoPart(prog, n, |prog[n].defs|, |prog[n].uses|, into) && ChannelTable(prog, n, last)
    ensures forall u :: u in Joined(into, LastIn(last, prog[n].channel)) <==> Dep(prog, u, n)
  {
    var defs, uses, c := prog[n].defs, prog[n].uses, prog[n].channel;
    assert defs[..|defs|] == defs && uses[..|uses|] == uses;
    forall u: nat
      ensures u in Joined(into, LastIn(last, c)) <==> Dep(prog, u, n)
    {
      assert u in into <==> PartDep(prog, u, n, |defs|, |uses|);
      assert c.On? && LastOn(prog, n, c, u) ==> u == LastIn(last, c);
    }
  }

  lemma ChannelTableGrows(prog: seq<Instr>, n: nat, last: map<nat, nat>)
    requires n < |prog| && ChannelTable(prog, n, last)
    ensures ChannelTable(prog, n + 1, Noted(last, prog[n].channel, n))
  {
  }

  lemma GraphGrows(prog: seq<Instr>, n: nat, succ0: seq<seq<nat>>, pred0: seq<set<nat>>, depths0: seq<nat>,
                   into: set<nat>, succ: seq<seq<nat>>, pred: seq<set<nat>>, depths: seq<nat>)
    requires Linked(prog, n, succ0, pred0, depths0, into, succ, pred, depths) && GraphOf(prog, n, succ0, pred0)
    requires forall u :: u in into <==> Dep(prog, u, n)
    ensures GraphOf(prog, n + 1, succ, pred)
  {
    forall u, v: nat | 0 <= u < |succ| && v in succ[u] ensures v < n + 1 && u in pred[v] {
      assert v in succ0[u] || (v == n && u in into);
    }
    forall v, u: nat | 0 <= v < n + 1 ensures u in pred[v] <==> Dep(prog, u, v) {
      if v < n {
        assert u in pred0[v] <==> Dep(prog, u, v);
      }
    }
    forall v, u: nat | 0 <= v < |pred| && u in pred[v] ensures u < |succ| && v in succ[u] {
      assert v != n ==> u in pred0[v];
    }
  }

  lemma DepthsGrow(prog: seq<Instr>, n: nat, depths0: seq<nat>, depths: seq<nat>)
    requires n < |prog| && DepthsRise(prog, n, depths0) && |depths| == |depths0|
    requires forall u :: 0 <= u < n ==> depths[u] == depths0[u]
    requires forall u: nat :: u < n && Dep(prog, u, n) ==>
      depths0[u] <= depths[n] && (prog[n].open ==> depths0[u] < depths[n])
    ensures DepthsRise(prog, n + 1, depths)
  {
    forall u: nat, v: nat | u < v < n + 1 && Dep(prog, u, v)
      ensures depths[u] <= depths[v] && (prog[v].open ==> depths[u] < depths[v])
    {
      assert v < n ==> depths0[u] <= depths0[v];
    }
  }

  lemma NoEdgesYet(prog: seq<Instr>, n: nat, succ: seq<seq<nat>>, pred: seq<set<nat>>)
    requires GraphOf(prog, n, succ, pred) && n < |prog|
    ensures pred[n] == {} && forall u :: 0 <= u < |succ| ==> n !in succ[u]
  {
  }

  /** The depth of n is the greatest among its dependencies, or 0. */
  ghost predicate Based(prog: seq<Instr>, n: nat, depths0: seq<nat>, depths: seq<nat>) {
    && n < |prog| == |depths0| == |depths|
    && (forall u :: 0 <= u < |depths| && u != n ==> depths[u] == depths0[u])
    && (forall u: nat {:trigger Dep(prog, u, n)} :: u < n && Dep(prog, u, n) ==> depths0[u] <= depths[n])
    && (depths[n] == 0 || exists u: nat {:trigger Dep(prog, u, n)} ::
        u < n && Dep(prog, u, n) && depths[n] == depths0[u])
  }

  lemma LinkedIsBased(prog: seq<Instr>, n: nat, succ0: seq<seq<nat>>, pred0: seq<set<nat>>, depths0: seq<nat>,
                      into: set<nat>, succ: seq<seq<nat>>, pred: seq<set<nat>>, depths: seq<nat>)
    requires Linked(prog, n, succ0, pred0, depths0, into, succ, pred, depths)
    requires forall u :: u in into <==> Dep(prog, u, n)
    ensures Based(prog, n, depths0, depths)
  {
    if depths[n] != 0 {
      var u :| u in into && depths[n] == depths0[u];
      assert Dep(prog, u, n);
    }
  }

  lemma BasedGrows(prog: seq<Instr>, n: nat, depths0: seq<nat>, based: seq<nat>, depths: seq<nat>)
    requires Based(prog, n, depths0, based) && DepthsRise(prog, n, depths0) && |depths| == |depths0|
    requires forall u :: 0 <= u < |depths| && u != n ==> depths[u] == based[u]
    requires depths[n] >= based[n] + OpenBit(prog[n])
    ensures DepthsRise(prog, n + 1, depths)
  {
    DepthsGrow(prog, n, depths0, depths);
  }

  /** The placement with instruction n, which started from the depth its dependencies give it. */
  lemma PlacedGrows(prog: seq<Instr>, n: nat, depths0: seq<nat>, based: seq<nat>, depths: seq<nat>, maxParallel: nat)
    requires Placed(prog, n, depths0, maxParallel) && Based(prog, n, depths0, based) && |depths| == |depths0|
    requires forall u :: 0 <= u < |depths| && u != n ==> depths[u] == based[u]
    requires !prog[n].open ==> depths[n] == based[n]
    requires prog[n].open ==> depths[n] > based[n] && !BlockedAt(prog, based, n, depths[n], maxParallel)
    requires prog[n].open ==>
      forall d: nat :: based[n] < d < depths[n] ==> Passed(prog, based, n, d, maxParallel)
    ensures Placed(prog, n + 1, depths, maxParallel)
  {
    hide BlockedAt, Passed;
    PlacedKept(prog, n, depths0, depths, maxParallel);
    PassedKept(prog, based, depths, n, depths[n], maxParallel);
    if prog[n].open {
      assert Above(prog, depths, n, depths[n]);
      forall d: nat {:trigger Above(prog, depths, n, d)} | Above(prog, depths, n, d) && d < depths[n]
        ensures Passed(prog, depths, n, d, maxParallel)
      {
        PassedKept(prog, based, depths, n, d, maxParallel);
      }
    } else if depths[n] != 0 {
      var u: nat :| u < n && Dep(prog, u, n) && based[n] == depths0[u];
      assert depths[u] == depths0[u];
    }
    assert PlacedAt(prog, depths, n, maxParallel);
  }

  lemma BasedIsFirst(prog: seq<Instr>, n: nat, depths0: seq<nat>, based: seq<nat>, depths: seq<nat>)
    requires Based(prog, n, depths0, based) && |depths| == |depths0|
    requires forall u :: 0 <= u < |depths| && u != n ==> depths[u] == based[u]
    ensures First(prog, depths, n, based[n] + 1)
  {
    assert Above(prog, depths, n, based[n] + 1);
    forall e: nat {:trigger Above(prog, depths, n, e)} | e <= based[n] ensures !Above(prog, depths, n, e) {
      if based[n] != 0 {
        var u: nat :| u < n && Dep(prog, u, n) && based[n] == depths0[u];
        assert depths[u] == depths0[u];
      }
    }
  }

  lemma TurnTaken(prog: seq<Instr>, n: nat, depths0: seq<nat>, based: seq<nat>, depths: seq<nat>, maxParallel: nat,
                  tables: seq<Table>, paths: seq<seq<nat>>, path: seq<nat>, table': Table)
    requires Turns(prog, n, depths0, maxParallel, tables, paths)
    requires Based(prog, n, depths0, based) && |depths| == |depths0|
    requires forall u :: 0 <= u < |depths| && u != n ==> depths[u] == based[u]
    requires !prog[n].open ==> depths[n] == based[n] && path == [] && table' == tables[n]
    requires prog[n].open ==>
      && Search(prog, based, n, maxParallel, tables[n], based[n] + 1, path) && depths[n] == path[|path| - 1]
      && Remembered(tables[n], table', prog[n].kind, Elements(path[..|path| - 1]), depths[n])
    ensures Turns(prog, n + 1, depths, maxParallel, tables + [table'], paths + [path])
  {
    hide First, Remembered, Elements;
    BasedIsFirst(prog, n, depths0, based, depths);
    if prog[n].open {
      SearchKept(prog, based, depths, n, maxParallel, tables[n], path);
    }
    TurnsGrow(prog, n, depths0, depths, maxParallel, tables, paths, path, table');
  }

  /** No instruction on a channel is merged. */
  ghost predicate Separate(prog: seq<Instr>) {
    forall v :: 0 <= v < |prog| ==> !(prog[v].open && prog[v].channel.On?)
  }

  // ----- Merging nodes -----

  lemma DropKeepsStep(succ: seq<seq<nat>>, pred: seq<set<nat>>, live: set<nat>, i: nat, j: nat)
    requires InStep(succ, pred, live) && i in live && j in succ[i]
    ensures j < |pred| && i in pred[j]
    ensures InStep(succ[i := Without(succ[i], j)], pred[j := pred[j] - {i}], live)
  {
  }

  lemma AddKeepsStep(succ: seq<seq<nat>>, pred: seq<set<nat>>, live: set<nat>, i: nat, j: nat, succ': seq<seq<nat>>,
                     pred': seq<set<nat>>)
    requires InStep(succ, pred, live) && i in live && j in live
    requires succ' == (if j in succ[i] then succ else succ[i := succ[i] + [j]])
    requires pred' == (if j in succ[i] then pred else pred[j := pred[j] + {i}])
    ensures InStep(succ', pred', live)
    ensures forall x: nat, y: nat {:trigger Edge(succ', x, y)} :: Edge(succ', x, y) <==>
      Edge(succ, x, y) || (x == i && y == j)
  {
  }

  lemma RemoveKeepsStep(succ: seq<seq<nat>>, pred: seq<set<nat>>, live: set<nat>, j: nat, succ': seq<seq<nat>>,
                        pred': seq<set<nat>>)
    requires InStep(succ, pred, live) && j in live && j !in succ[j] && |succ'| == |pred'| == |succ|
    requires forall x :: 0 <= x < |succ| ==> succ'[x] == if x in pred[j] then Without(succ[x], j) else succ[x]
    requires forall y :: 0 <= y < |succ| ==>
      pred'[y] == if y == j then {} else if y in succ[j] then pred[y] - {j} else pred[y]
    ensures InStep(succ', pred', live - {j})
    ensures forall x: nat, y: nat {:trigger Edge(succ', x, y)} :: Edge(succ', x, y) <==>
      Edge(succ, x, y) && (y != j || x !in live)
  {
    forall x: nat, y: nat {:trigger Edge(succ', x, y)}
      ensures Edge(succ', x, y) <==> Edge(succ, x, y) && (y != j || x !in live)
    {
      assert x < |succ| && x in live && j in succ[x] ==> x in pred[j];
      assert x < |succ| && x in pred[j] ==> x in live;
    }
  }

  /** The nodes seen so far, by depth. */
  ghost predicate DepthTable(depths: seq<nat>, merges: map<nat, set<nat>>, seen: set<nat>) {
    && (forall v: nat :: v in seen ==> v < |depths| && depths[v] in merges && v in merges[depths[v]])
    && (forall d: nat, v: nat {:trigger v in merges[d]} :: d in merges && v in merges[d] ==>
        v in seen && v < |depths| && depths[v] == d)
    && (forall d: nat :: d in merges ==> merges[d] != {})
  }

  lemma NoDepths(depths: seq<nat>)
    ensures DepthTable(depths, map[], {})
  {
  }

  lemma DepthTableGrows(depths: seq<nat>, merges: map<nat, set<nat>>, seen: set<nat>, node: nat)
    requires DepthTable(depths, merges, seen) && node < |depths|
    ensures var d := depths[node];
            DepthTable(depths, merges[d := (if d in merges then merges[d] else {}) + {node}], seen + {node})
  {
    var d := depths[node];
    var merges' := merges[d := (if d in merges then merges[d] else {}) + {node}];
    forall v: nat | v in seen + {node} ensures v < |depths| && depths[v] in merges' && v in merges'[depths[v]] {
      assert v != node ==> v in seen;
    }
    forall e: nat, v: nat {:trigger v in merges'[e]} | e in merges' && v in merges'[e]
      ensures v in seen + {node} && v < |depths| && depths[v] == e
    {
      if !(v == node && e == d) {
        assert v in merges[e];
      }
    }
    forall e: nat | e in merges' ensures merges'[e] != {} {
      if e == d {
        assert node in merges'[e];
      } else {
        assert merges'[e] == merges[e];
      }
    }
  }

  lemma SomeDepth(depths: seq<nat>, merges: map<nat, set<nat>>, openNodes: set<nat>)
    requires DepthTable(depths, merges, openNodes) && openNodes != {}
    ensures |merges.Keys| > 0
  {
    var v :| v in openNodes;
    assert depths[v] in merges.Keys;
  }

  lemma DepthTableKeys(prog: seq<Instr>, depths: seq<nat>, merges: map<nat, set<nat>>, openNodes: set<nat>)
    requires |depths| == |prog| && DepthTable(depths, merges, openNodes)
    requires forall v: nat :: v in openNodes <==> v < |prog| && prog[v].open
    ensures merges.Keys == OpenDepths(prog, depths)
  {
    forall d | d in merges ensures d in OpenDepths(prog, depths) {
      var v :| v in merges[d];
      assert v in openNodes;
    }
    forall d | d in OpenDepths(prog, depths) ensures d in merges {
      var v :| 0 <= v < |prog| && prog[v].open && depths[v] == d;
      assert v in openNodes;
    }
  }

  lemma AtOneDepth(prog: seq<Instr>, depths: seq<nat>, roundType: map<nat, nat>, merges: map<nat, set<nat>>,
                   openNodes: set<nat>, d: nat)
    requires |depths| == |prog| && OneTypePerDepth(prog, |prog|, depths, roundType)
    requires DepthTable(depths, merges, openNodes) && d in merges
    requires forall v: nat :: v in openNodes <==> v < |prog| && prog[v].open
    ensures merges[d] != {} && forall x :: x in merges[d] ==> x in openNodes && x < |prog| && depths[x] == d
    ensures forall x, y :: x in merges[d] && y in merges[d] ==> Peers(prog, depths, x, y)
  {
    forall x | x in merges[d]
      ensures x in openNodes && x < |prog| && depths[x] == d && prog[x].mergeId == roundType[d]
    {
    }
  }

  /** Open nodes of depths still to come are untouched. */
  ghost predicate Waiting(depths: seq<nat>, openNodes: set<nat>, todo: set<nat>, live: set<nat>, groups: seq<seq<nat>>,
                          rep: seq<nat>) {
    && |groups| == |depths| == |rep| && (forall v :: v in openNodes ==> v < |depths|)
    && forall v :: v in openNodes && depths[v] in todo ==> v in live && groups[v] == [v] && rep[v] == v
  }

  /** Open nodes of a finished depth have one representative. */
  ghost predicate SameRep(depths: seq<nat>, openNodes: set<nat>, todo: set<nat>, rep: seq<nat>) {
    && |depths| == |rep| && (forall v :: v in openNodes ==> v < |depths|)
    && forall u, v :: u in openNodes && v in openNodes && depths[u] == depths[v] && depths[u] !in todo ==>
         rep[u] == rep[v]
  }

  lemma DepthDone(depths: seq<nat>, merges: map<nat, set<nat>>, openNodes: set<nat>, todo: set<nat>, d: nat,
                  live: set<nat>, groups: seq<seq<nat>>, rep: seq<nat>, live': set<nat>, groups': seq<seq<nat>>,
                  rep': seq<nat>)
    requires DepthTable(depths, merges, openNodes) && d in merges
    requires Waiting(depths, openNodes, todo, live, groups, rep) && SameRep(depths, openNodes, todo, rep)
    requires |groups'| == |depths| == |rep'|
    requires forall x: nat :: x < |depths| && x !in merges[d] ==> groups'[x] == groups[x] && (x in live' <==> x in live)
    requires forall x: nat :: x < |depths| && rep[x] !in merges[d] ==> rep'[x] == rep[x]
    requires forall x, y :: x in merges[d] && y in merges[d] ==> x < |depths| && y < |depths| && rep'[x] == rep'[y]
    requires forall u: nat, v: nat :: u < |depths| && v < |depths| && rep[u] == rep[v] ==> rep'[u] == rep'[v]
    ensures Waiting(depths, openNodes, todo - {d}, live', groups', rep') && SameRep(depths, openNodes, todo - {d}, rep')
  {
  }

  /** The result of scheduling: a reordering that respects all conflicts, the same final state from every state,
      and merged instructions alike, one for each round. */
  ghost predicate Scheduled(prog: seq<Instr>, depths: seq<nat>, sched: seq<seq<nat>>) {
    && Faithful(prog, sched)
    && (forall s :: RunSchedule(prog, sched, s) == Run(prog, UpTo(|prog|), s))
    && ScheduledAlike(prog, depths, sched)
  }

  lemma KeepsMeaning(prog: seq<Instr>, sched: seq<seq<nat>>)
    requires Faithful(prog, sched)
    ensures forall s :: RunSchedule(prog, sched, s) == Run(prog, UpTo(|prog|), s)
  {
    forall s ensures RunSchedule(prog, sched, s) == Run(prog, UpTo(|prog|), s) {
      FaithfulKeepsMeaning(prog, sched, s);
    }
  }

  /** No chain has more open instructions than rounds, and, if exact, some chain has as many. */
  ghost predicate IsLongest(prog: seq<Instr>, rounds: nat, exact: bool) {
    && (forall p :: Chain(prog, p) ==> OpenCount(prog, p) <= rounds)
    && (exact && rounds > 0 ==> exists p :: Chain(prog, p) && OpenCount(prog, p) == rounds)
  }

  lemma RoundsAreLongest(prog: seq<Instr>, depths: seq<nat>, exact: bool)
    requires DepthsRise(prog, |prog|, depths) && (exact ==> Tight(prog, |prog|, depths))
    ensures IsLongest(prog, |OpenDepths(prog, depths)|, exact)
  {
    forall p | Chain(prog, p) ensures OpenCount(prog, p) <= |OpenDepths(prog, depths)| {
      ChainFitsRounds(prog, depths, p);
    }
    if exact && OpenDepths(prog, depths) != {} {
      var _ := ChainNeedsRounds(prog, depths);
    }
  }

  /** With nothing to merge the block stays as it is. */
  lemma Unmerged(prog: seq<Instr>, depths: seq<nat>, groups: seq<seq<nat>>)
    requires |groups| == |prog| == |depths| && forall i :: 0 <= i < |groups| ==> groups[i] == [i]
    requires forall v :: 0 <= v < |prog| ==> !prog[v].open
    ensures Scheduled(prog, depths, groups) && OpenDepths(prog, depths) == {}
  {
    FlatSingles(groups, |groups|);
    assert groups[..|groups|] == groups;
    assert Faithful(prog, groups);
    KeepsMeaning(prog, groups);
  }

  lemma {:induction false} FlatSingles(groups: seq<seq<nat>>, n: nat)
    requires n <= |groups| && forall i :: 0 <= i < |groups| ==> groups[i] == [i]
    ensures Flatten(groups[..n]) == UpTo(n)
  {
    if n > 0 {
      FlatSingles(groups, n - 1);
      assert groups[..n][..n - 1] == groups[..n - 1];
    }
  }

  class Merger {
    const prog: seq<Instr>
    const maxParallel: nat
    const G: SparseDiGraph
    var depths: seq<nat>
    var openNodes: set<nat>
    var instructions: seq<seq<nat>>
    // tables of the dependency analysis
    var lastDef: map<nat, nat>
    var lastRead: map<nat, seq<nat>>
    var last: map<nat, nat>
    var roundType: map<nat, nat>
    var parallelOpen: map<nat, nat>
    var nextAvailable: map<(nat, nat), nat>
    ghost var top: nat
    // the rounds each instruction tried, and the shortcuts before its turn
    ghost var tables: seq<Table>
    ghost var paths: seq<seq<nat>>

    constructor (prog: seq<Instr>, maxParallel: nat)
      requires Separate(prog)
      ensures fresh(G) && this.prog == prog && this.maxParallel == maxParallel && ReadyToMerge()
    {
      this.prog := prog;
      this.maxParallel := maxParallel;
      G := new SparseDiGraph(|prog|);
      depths := seq(|prog|, _ => 0);
      openNodes := {};
      instructions := seq(|prog|, i requires 0 <= i < |prog| => [i]);
      lastDef, lastRead, last := map[], map[], map[];
      roundType, parallelOpen, nextAvailable := map[], map[], map[];
      top, tables, paths := 0, [map[]], [];
      new;
      DependencyGraph();
    }

    /** An edge into j, and its depth with it. */
    method AddEdge(i: int, j: nat, ghost succ0: seq<seq<nat>>, ghost pred0: seq<set<nat>>, ghost depths0: seq<nat>,
                   ghost into: set<nat>)
      requires G.Sized() && G.n == |prog| && -1 <= i <= j
      requires Linked(prog, j, succ0, pred0, depths0, into, G.succ, G.pred, depths)
      requires forall u :: 0 <= u < |succ0| ==> j !in succ0[u]
      modifies G, `depths
      ensures G.Sized()
      ensures Linked(prog, j, succ0, pred0, depths0, if i == -1 || i == j then into else into + {i},
                     G.succ, G.pred, depths)
    {
      if i == -1 || i == j {
        return;
      }
      G.AddEdge(i, j);
      if depths[j] < depths[i] {
        depths := depths[j := depths[i]];
      }
    }

    method AddReaders(readers: seq<nat>, n: nat, ghost succ0: seq<seq<nat>>, ghost pred0: seq<set<nat>>,
                      ghost depths0: seq<nat>, ghost into: set<nat>) returns (ghost into': set<nat>)
      requires G.Sized() && G.n == |prog|
      requires Linked(prog, n, succ0, pred0, depths0, into, G.succ, G.pred, depths)
      requires forall u :: 0 <= u < |succ0| ==> n !in succ0[u]
      requires forall m :: m in readers ==> m < n
      modifies G, `depths
      ensures G.Sized() && into' == into + set m | m in readers
      ensures Linked(prog, n, succ0, pred0, depths0, into', G.succ, G.pred, depths)
    {
      hide Linked;
      into' := into;
      for k := 0 to |readers|
        invariant G.Sized() && into' == into + set m | m in readers[..k]
        invariant Linked(prog, n, succ0, pred0, depths0, into', G.succ, G.pred, depths)
      {
        assert readers[..k + 1] == readers[..k] + [readers[k]] && readers[k] in readers;
        AddEdge(readers[k], n, succ0, pred0, depths0, into');
        into' := into' + {readers[k]};
      }
      assert readers[..|readers|] == readers;
    }

    method Write(reg: nat, n: nat, ghost succ0: seq<seq<nat>>, ghost pred0: seq<set<nat>>, ghost depths0: seq<nat>,
                 ghost into: set<nat>)
      returns (ghost into': set<nat>)
      requires G.Sized() && G.n == |prog|
      requires Linked(prog, n, succ0, pred0, depths0, into, G.succ, G.pred, depths)
      requires forall u :: 0 <= u < |succ0| ==> n !in succ0[u]
      requires reg in lastDef ==> lastDef[reg] <= n
      requires forall m :: m in ReadersOf(lastRead, reg) ==> m < n
      modifies G, `depths, `lastDef
      ensures G.Sized() && into' == into + Source(old(lastDef), reg, n) + Readers(lastRead, reg)
      ensures Linked(prog, n, succ0, pred0, depths0, into', G.succ, G.pred, depths)
      ensures lastDef == old(lastDef)[reg := n]
    {
      into' := into + Source(lastDef, reg, n);
      AddEdge(if reg in lastDef then lastDef[reg] else -1, n, succ0, pred0, depths0, into);
      into' := AddReaders(ReadersOf(lastRead, reg), n, succ0, pred0, depths0, into');
      lastDef := lastDef[reg := n];
    }

    method Read(reg: nat, n: nat, ghost succ0: seq<seq<nat>>, ghost pred0: seq<set<nat>>, ghost depths0: seq<nat>,
                ghost into: set<nat>)
      returns (ghost into': set<nat>)
      requires G.Sized() && G.n == |prog|
      requires Linked(prog, n, succ0, pred0, depths0, into, G.succ, G.pred, depths)
      requires forall u :: 0 <= u < |succ0| ==> n !in succ0[u]
      requires reg in lastDef ==> lastDef[reg] <= n
      modifies G, `depths, `lastRead
      ensures G.Sized() && into' == into + Source(lastDef, reg, n)
      ensures Linked(prog, n, succ0, pred0, depths0, into', G.succ, G.pred, depths)
      ensures lastRead == old(lastRead)[reg := ReadersOf(old(lastRead), reg) + [n]]
    {
      into' := into + Source(lastDef, reg, n);
      if reg in lastDef && lastDef[reg] != n {
        AddEdge(lastDef[reg], n, succ0, pred0, depths0, into);
      }
      lastRead := lastRead[reg := ReadersOf(lastRead, reg) + [n]];
    }

    /** The k-th register an instruction writes. */
    method WriteOne(n: nat, k: nat, ghost succ0: seq<seq<nat>>, ghost pred0: seq<set<nat>>, ghost depths0: seq<nat>,
                    ghost into: set<nat>, ghost lastDef0: map<nat, nat>) returns (ghost into': set<nat>)
      requires G.Sized() && G.n == |prog| && n < |prog| && k < |prog[n].defs|
      requires Linked(prog, n, succ0, pred0, depths0, into, G.succ, G.pred, depths) && IntoPart(prog, n, k, 0, into)
      requires forall u :: 0 <= u < |succ0| ==> n !in succ0[u]
      requires DefTable(prog, n, lastDef0) && ReadTable(prog, n, lastRead) &&
        Rewritten(lastDef0, lastDef, prog[n].defs[..k], n)
      modifies G, `depths, `lastDef
      ensures G.Sized() && IntoPart(prog, n, k + 1, 0, into')
      ensures Linked(prog, n, succ0, pred0, depths0, into', G.succ, G.pred, depths)
      ensures Rewritten(lastDef0, lastDef, prog[n].defs[..k + 1], n)
    {
      hide Linked, IntoPart, DefTable, ReadTable, Rewritten;
      var defs := prog[n].defs;
      WriteStep(prog, n, k, into, lastDef0, lastDef, lastRead);
      TablesBelow(prog, n, lastDef0, lastDef, defs[..k], lastRead, defs[k]);
      RewrittenGrows(lastDef0, lastDef, defs, k, n);
      into' := Write(defs[k], n, succ0, pred0, depths0, into);
    }

    method WriteAll(n: nat, ghost succ0: seq<seq<nat>>, ghost pred0: seq<set<nat>>, ghost depths0: seq<nat>)
      returns (ghost into: set<nat>)
      requires G.Sized() && G.n == |prog| && n < |prog|
      requires Linked(prog, n, succ0, pred0, depths0, {}, G.succ, G.pred, depths)
      requires forall u :: 0 <= u < |succ0| ==> n !in succ0[u]
      requires DefTable(prog, n, lastDef) && ReadTable(prog, n, lastRead)
      modifies G, `depths, `lastDef
      ensures G.Sized() && IntoPart(prog, n, |prog[n].defs|, 0, into)
      ensures Linked(prog, n, succ0, pred0, depths0, into, G.succ, G.pred, depths)
      ensures Rewritten(old(lastDef), lastDef, prog[n].defs, n)
    {
      into := {};
      var defs := prog[n].defs;
      assert IntoPart(prog, n, 0, 0, {}) && Rewritten(lastDef, lastDef, defs[..0], n);
      hide Linked, IntoPart, Rewritten, DefTable, ReadTable;
      for k := 0 to |defs|
        invariant G.Sized() && IntoPart(prog, n, k, 0, into)
        invariant Linked(prog, n, succ0, pred0, depths0, into, G.succ, G.pred, depths)
        invariant Rewritten(old(lastDef), lastDef, defs[..k], n)
      {
        into := WriteOne(n, k, succ0, pred0, depths0, into, old(lastDef));
      }
      assert defs[..|defs|] == defs;
    }

    method ReadAll(n: nat, ghost succ0: seq<seq<nat>>, ghost pred0: seq<set<nat>>, ghost depths0: seq<nat>,
                   ghost into: set<nat>, ghost lastDef0: map<nat, nat>)
      returns (ghost into': set<nat>)
      requires G.Sized() && G.n == |prog| && n < |prog|
      requires Linked(prog, n, succ0, pred0, depths0, into, G.succ, G.pred, depths)
      requires forall u :: 0 <= u < |succ0| ==> n !in succ0[u]
      requires IntoPart(prog, n, |prog[n].defs|, 0, into)
      requires DefTable(prog, n, lastDef0) && Rewritten(lastDef0, lastDef, prog[n].defs, n) &&
        ReadTable(prog, n, lastRead)
      modifies G, `depths, `lastRead
      ensures G.Sized() && IntoPart(prog, n, |prog[n].defs|, |prog[n].uses|, into')
      ensures Linked(prog, n, succ0, pred0, depths0, into', G.succ, G.pred, depths)
      ensures ReadTable(prog, n + 1, lastRead)
    {
      into' := into;
      var uses := prog[n].uses;
      for l := 0 to |uses|
        invariant G.Sized() && IntoPart(prog, n, |prog[n].defs|, l, into')
        invariant Linked(prog, n, succ0, pred0, depths0, into', G.succ, G.pred, depths)
        invariant ReadSoFar(prog, n, uses[..l], lastRead)
      {
        ReadStep(prog, n, l, into', lastDef0, lastDef);
        ReadSnoc(prog, n, uses[..l], uses[l], lastRead);
        assert uses[..l + 1] == uses[..l] + [uses[l]];
        into' := Read(uses[l], n, succ0, pred0, depths0, into');
      }
      assert uses[..|uses|] == uses;
      ReadTableGrows(prog, n, lastRead);
    }

    predicate Blocked(i: Instr, depth: nat)
      reads `roundType, `parallelOpen
    {
      || (depth in roundType && roundType[depth] != i.mergeId)
      || (maxParallel > 0 && depth in parallelOpen && parallelOpen[depth] >= maxParallel)
    }

    ghost predicate RoundsOf(n: nat)
      reads this
    {
      RoundTable(prog, n, depths, maxParallel, roundType, parallelOpen, nextAvailable, top)
    }

    /** The first round after the instruction's depth that has its type and room for it; a shortcut may pass by rounds
        that are barred to its kind. */
    method FindDepth(n: nat) returns (depth: nat, ghost path: seq<nat>)
      requires n < |prog| == |depths| && prog[n].open && RoundsOf(n)
      modifies `roundType, `parallelOpen, `nextAvailable, `top
      ensures Search(prog, depths, n, maxParallel, old(nextAvailable), depths[n] + 1, path) && depth == path[|path| - 1]
      ensures Remembered(old(nextAvailable), nextAvailable, prog[n].kind, Elements(path[..|path| - 1]), depth)
      ensures roundType == old(roundType)[depth := prog[n].mergeId]
      ensures parallelOpen == if maxParallel > 0
                              then old(parallelOpen)[depth := Taken(old(parallelOpen), depth) + prog[n].weight]
                              else old(parallelOpen)
      ensures depth > depths[n] && !BlockedAt(prog, depths, n, depth, maxParallel)
      ensures forall d: nat :: depths[n] < d < depth ==> Passed(prog, depths, n, d, maxParallel)
      ensures RoundTable(prog, n + 1, depths[n := depth], maxParallel, roundType, parallelOpen, nextAvailable, top)
    {
      hide RoundTable, BlockedAt, Passed, Trying, Search, Elements, Remembered;
      depth := depths[n] + 1;
      var i, skipped: set<nat> := prog[n], {};
      path := [depth];
      TypesBounded(n);
      TryFirst(prog, depths, n, maxParallel, nextAvailable);
      TableTells(prog, n, depths, maxParallel, roundType, parallelOpen, nextAvailable, top, depth);
      while Blocked(i, depth)
        invariant Trying(prog, depths, n, maxParallel, nextAvailable, path, depth, skipped)
        invariant Blocked(i, depth) <==> BlockedAt(prog, depths, n, depth, maxParallel)
        modifies {}
        decreases top - depth
      {
        JumpPasses(prog, n, depths, maxParallel, roundType, parallelOpen, nextAvailable, top, depth);
        TryNext(prog, depths, n, maxParallel, nextAvailable, path, depth, skipped);
        skipped := skipped + {depth};
        depth := if (i.kind, depth) in nextAvailable then nextAvailable[(i.kind, depth)] else depth + 1;
        path := path + [depth];
        TableTells(prog, n, depths, maxParallel, roundType, parallelOpen, nextAvailable, top, depth);
      }
      TryEnds(prog, depths, n, maxParallel, nextAvailable, path, depth, skipped);
      ghost var roundType0, parallelOpen0, nextAvailable0, top0 := roundType, parallelOpen, nextAvailable, top;
      Remember(i.kind, skipped, depth);
      roundType := roundType[depth := i.mergeId];
      if maxParallel > 0 {
        parallelOpen := parallelOpen[depth := Taken(parallelOpen, depth) + i.weight];
      }
      top := if depth > top then depth else top;
      TablePlaced(prog, n, depths, depth, maxParallel, roundType0, parallelOpen0, nextAvailable0, top0, skipped,
                  parallelOpen, nextAvailable);
    }

    lemma TypesBounded(n: nat)
      requires RoundsOf(n)
      ensures forall d :: d in roundType ==> d <= top
      ensures forall d :: d in parallelOpen ==> d <= top
    {
    }

    method Remember(kind: nat, skipped: set<nat>, depth: nat)
      modifies `nextAvailable
      ensures Remembered(old(nextAvailable), nextAvailable, kind, skipped, depth)
    {
      var todo := skipped;
      while todo != {}
        invariant todo <= skipped && Remembered(old(nextAvailable), nextAvailable, kind, skipped - todo, depth)
      {
        var d :| d in todo;
        nextAvailable := nextAvailable[(kind, d) := depth];
        todo := todo - {d};
      }
    }

    /** The analysis of the first n instructions is complete. */
    ghost predicate Analysed(n: nat)
      reads this, G
    {
      && G.Sized() && G.n == |prog| == |depths| && n <= |prog|
      && GraphOf(prog, n, G.succ, G.pred) && DepthsRise(prog, n, depths)
      && (forall v :: n <= v < |depths| ==> depths[v] == 0)
      && DefTable(prog, n, lastDef) && ReadTable(prog, n, lastRead) && ChannelTable(prog, n, last)
      && RoundsOf(n) && Placed(prog, n, depths, maxParallel)
      && Turns(prog, n, depths, maxParallel, tables, paths) && tables[n] == nextAvailable
      && (forall v: nat :: v in openNodes <==> v < n && prog[v].open)
    }

    /** The register dependencies of n. */
    method EnterRegisters(n: nat, ghost succ0: seq<seq<nat>>, ghost pred0: seq<set<nat>>, ghost depths0: seq<nat>)
      returns (ghost into: set<nat>)
      requires G.Sized() && G.n == |prog| && n < |prog|
      requires Linked(prog, n, succ0, pred0, depths0, {}, G.succ, G.pred, depths)
      requires forall u :: 0 <= u < |succ0| ==> n !in succ0[u]
      requires DefTable(prog, n, lastDef) && ReadTable(prog, n, lastRead)
      modifies G, `depths, `lastDef, `lastRead
      ensures G.Sized() && IntoPart(prog, n, |prog[n].defs|, |prog[n].uses|, into)
      ensures Linked(prog, n, succ0, pred0, depths0, into, G.succ, G.pred, depths)
      ensures DefTable(prog, n + 1, lastDef) && ReadTable(prog, n + 1, lastRead)
    {
      ghost var lastDef0 := lastDef;
      into := WriteAll(n, succ0, pred0, depths0);
      into := ReadAll(n, succ0, pred0, depths0, into, lastDef0);
      DefTableGrows(prog, n, lastDef0, lastDef);
    }

    /** The order of the instructions on a channel. */
    method KeepOrder(n: nat, ghost succ0: seq<seq<nat>>, ghost pred0: seq<set<nat>>, ghost depths0: seq<nat>,
                     ghost into: set<nat>)
      returns (ghost into': set<nat>)
      requires G.Sized() && G.n == |prog| && n < |prog|
      requires Linked(prog, n, succ0, pred0, depths0, into, G.succ, G.pred, depths)
      requires forall u :: 0 <= u < |succ0| ==> n !in succ0[u]
      requires IntoPart(prog, n, |prog[n].defs|, |prog[n].uses|, into) && ChannelTable(prog, n, last)
      modifies G, `depths, `last
      ensures G.Sized() && forall u :: u in into' <==> Dep(prog, u, n)
      ensures Linked(prog, n, succ0, pred0, depths0, into', G.succ, G.pred, depths)
      ensures ChannelTable(prog, n + 1, last)
    {
      var c := prog[n].channel;
      IntoIsDep(prog, n, into, last);
      ChannelTableGrows(prog, n, last);
      into' := Joined(into, LastIn(last, c));
      if c.On? {
        AddEdge(LastIn(last, c), n, succ0, pred0, depths0, into);
        last := last[c.id := n];
      }
    }

    /** An open instruction goes to a round above all it depends on. */
    method Place(n: nat) returns (ghost path: seq<nat>)
      requires n < |prog| == |depths| && prog[n].open && RoundsOf(n)
      modifies `depths, `roundType, `parallelOpen, `nextAvailable, `top
      ensures |depths| == |prog| && (forall u :: 0 <= u < |prog| && u != n ==> depths[u] == old(depths)[u])
      ensures depths[n] > old(depths)[n] && !BlockedAt(prog, old(depths), n, depths[n], maxParallel)
      ensures forall d: nat :: old(depths)[n] < d < depths[n] ==> Passed(prog, old(depths), n, d, maxParallel)
      ensures Search(prog, old(depths), n, maxParallel, old(nextAvailable), old(depths)[n] + 1, path)
      ensures depths[n] == path[|path| - 1]
      ensures Remembered(old(nextAvailable), nextAvailable, prog[n].kind, Elements(path[..|path| - 1]), depths[n])
      ensures RoundsOf(n + 1)
    {
      hide RoundTable, BlockedAt, Passed, Search, Elements, Remembered;
      var depth;
      depth, path := FindDepth(n);
      depths := depths[n := depth];
    }

    /** All dependencies of n; no instruction on a channel waits to be merged, so that
        placing it in a round afterwards is no different from doing so in between. */
    method Enter(n: nat)
      requires G.Sized() && G.n == |prog| && n < |prog| == |depths| && depths[n] == 0
      requires GraphOf(prog, n, G.succ, G.pred)
      requires DefTable(prog, n, lastDef) && ReadTable(prog, n, lastRead) && ChannelTable(prog, n, last)
      modifies G, `depths, `lastDef, `lastRead, `last
      ensures G.Sized() && GraphOf(prog, n + 1, G.succ, G.pred)
      ensures DefTable(prog, n + 1, lastDef) && ReadTable(prog, n + 1, lastRead) && ChannelTable(prog, n + 1, last)
      ensures Based(prog, n, old(depths), depths)
    {
      ghost var succ0, pred0, depths0 := G.succ, G.pred, depths;
      NoEdgesYet(prog, n, G.succ, G.pred);
      ghost var into := EnterRegisters(n, succ0, pred0, depths0);
      into := KeepOrder(n, succ0, pred0, depths0, into);
      GraphGrows(prog, n, succ0, pred0, depths0, into, G.succ, G.pred, depths);
      LinkedIsBased(prog, n, succ0, pred0, depths0, into, G.succ, G.pred, depths);
    }

    /** One turn of the analysis loop. */
    method Analyse(n: nat)
      requires Analysed(n) && n < |prog| && !(prog[n].open && prog[n].channel.On?)
      modifies this, G
      ensures Analysed(n + 1) && instructions == old(instructions)
    {
      hide GraphOf, DefTable, ReadTable, ChannelTable, DepthsRise, Placed, RoundTable, BlockedAt, Passed, Search, Turn,
        Elements, Remembered;
      ghost var depths0, path: seq<nat> := depths, [];
      Enter(n);
      ghost var based := depths;
      TableKept(prog, n, depths0, depths, maxParallel, roundType, parallelOpen, nextAvailable, top);
      if prog[n].open {
        openNodes := openNodes + {n};
        path := Place(n);
      }
      BasedGrows(prog, n, depths0, based, depths);
      PlacedGrows(prog, n, depths0, based, depths, maxParallel);
      TurnTaken(prog, n, depths0, based, depths, maxParallel, tables, paths, path, nextAvailable);
      tables, paths := tables + [nextAvailable], paths + [path];
    }

    method DependencyGraph()
      requires Analysed(0) && Separate(prog)
      modifies this, G
      ensures Analysed(|prog|) && instructions == old(instructions)
    {
      for n := 0 to |prog|
        invariant Analysed(n) && instructions == old(instructions)
      {
        Analyse(n);
      }
    }

    /** merge_nodes: the edges of j move to i, and j is removed. */
    method MergeNodes(i: nat, j: nat, ghost live: set<nat>)
      requires G.Sized() && InStep(G.succ, G.pred, live) && i in live && j in live && i != j && j !in G.succ[j]
      modifies G
      ensures G.Sized() && InStep(G.succ, G.pred, live - {j})
      ensures Contracted(old(G.succ), G.succ, live, i, j)
    {
      if j in G.succ[i] {
        DropKeepsStep(G.succ, G.pred, live, i, j);
        G.RemoveEdge(i, j);
      }
      if i in G.succ[j] {
        DropKeepsStep(G.succ, G.pred, live, j, i);
        G.RemoveEdge(j, i);
      }
      ghost var succ1 := G.succ;
      assert forall x, y {:trigger Edge(succ1, x, y)} :: Edge(succ1, x, y) <==>
        Edge(old(G.succ), x, y) && !(x == i && y == j) && !(x == j && y == i);
      TakeSuccessors(i, j, live);
      TakePredecessors(i, j, live);
      assert !Edge(G.succ, j, j);
      RemoveMerged(j, live);
      assert Contracted(old(G.succ), G.succ, live, i, j);
    }

    method TakePredecessors(i: nat, j: nat, ghost live: set<nat>)
      requires G.Sized() && InStep(G.succ, G.pred, live) && i in live && j in live && i != j
      modifies G
      ensures G.Sized() && InStep(G.succ, G.pred, live)
      ensures forall x: nat, y: nat {:trigger Edge(G.succ, x, y)} ::
        Edge(G.succ, x, y) <==> Edge(old(G.succ), x, y) || (y == i && x in live && Edge(old(G.succ), x, j))
    {
      var predJ := G.pred[j];
      var todo := predJ;
      while todo != {}
        invariant G.Sized() && InStep(G.succ, G.pred, live) && todo <= predJ
        invariant forall x: nat, y: nat {:trigger Edge(G.succ, x, y)} ::
          Edge(G.succ, x, y) <==> Edge(old(G.succ), x, y) || (y == i && x in predJ - todo)
        decreases |todo|
      {
        var v :| v in todo;
        ghost var succ0, pred0 := G.succ, G.pred;
        assert v in old(G.pred[j]);
        G.AddEdge(v, i);
        AddKeepsStep(succ0, pred0, live, v, i, G.succ, G.pred);
        todo := todo - {v};
      }
    }

    method RemoveMerged(j: nat, ghost live: set<nat>)
      requires G.Sized() && InStep(G.succ, G.pred, live) && j in live && j !in G.succ[j]
      modifies G
      ensures G.Sized() && InStep(G.succ, G.pred, live - {j})
      ensures forall x: nat, y: nat {:trigger Edge(G.succ, x, y)} ::
        Edge(G.succ, x, y) <==> Edge(old(G.succ), x, y) && (y != j || x !in live)
    {
      ghost var succ0, pred0 := G.succ, G.pred;
      G.RemoveNode(j);
      RemoveKeepsStep(succ0, pred0, live, j, G.succ, G.pred);
    }

    method TakeSuccessors(i: nat, j: nat, ghost live: set<nat>)
      requires G.Sized() && InStep(G.succ, G.pred, live) && i in live && j in live && i != j
      modifies G
      ensures G.Sized() && InStep(G.succ, G.pred, live)
      ensures forall x: nat, y: nat {:trigger Edge(G.succ, x, y)} ::
        Edge(G.succ, x, y) <==> Edge(old(G.succ), x, y) || (x == i && Edge(old(G.succ), j, y))
    {
      var succJ := G.succ[j];
      for k := 0 to |succJ|
        invariant G.Sized() && InStep(G.succ, G.pred, live)
        invariant forall x: nat, y: nat {:trigger Edge(G.succ, x, y)} ::
          Edge(G.succ, x, y) <==> Edge(old(G.succ), x, y) || (x == i && y in succJ[..k])
      {
        assert succJ[..k + 1] == succJ[..k] + [succJ[k]] && succJ[k] in succJ;
        assert Edge(old(G.succ), j, succJ[k]);
        ghost var succ0, pred0 := G.succ, G.pred;
        G.AddEdge(i, succJ[k]);
        AddKeepsStep(succ0, pred0, live, i, succJ[k], G.succ, G.pred);
      }
      assert succJ[..|succJ|] == succJ;
    }

    method Smallest(s: set<nat>) returns (m: nat)
      requires s != {}
      ensures m in s && forall x :: x in s ==> m <= x
    {
      m :| m in s;
      var seen, todo := {m}, s - {m};
      while todo != {}
        invariant seen + todo == s && m in seen && forall x :: x in seen ==> m <= x
        decreases |todo|
      {
        var x :| x in todo;
        m := if x < m then x else m;
        seen, todo := seen + {x}, todo - {x};
      }
    }

    /** do_merge: all nodes of `merge` into the first of them, in ascending order. */
    method DoMerge(merge: set<nat>, ghost live: set<nat>, ghost rep: seq<nat>)
      returns (ghost live': set<nat>, ghost rep': seq<nat>)
      requires merge != {} && merge <= live && G.Sized() && G.n == |prog|
      requires MergeState(prog, depths, G.succ, G.pred, live, instructions, rep)
      requires forall x :: x in merge ==> x < |prog| && instructions[x] == [x]
      requires forall x, y :: x in merge && y in merge ==> Peers(prog, depths, x, y)
      modifies G, `instructions
      ensures G.Sized() && MergeState(prog, depths, G.succ, G.pred, live', instructions, rep')
      ensures forall x: nat :: x < |prog| && x !in merge ==>
        instructions[x] == old(instructions)[x] && (x in live' <==> x in live)
      ensures forall x: nat :: x < |prog| && rep[x] !in merge ==> rep'[x] == rep[x]
      ensures forall x, y :: x in merge && y in merge ==> rep'[x] == rep'[y]
      ensures forall u: nat, v: nat :: u < |prog| && v < |prog| && rep[u] == rep[v] ==> rep'[u] == rep'[v]
    {
      hide MergeState, GroupOf, Peers, InStep, Contracted;
      StateSizes(prog, depths, G.succ, G.pred, live, instructions, rep);
      live', rep' := live, rep;
      var n := Smallest(merge);
      var rest := merge - {n};
      while rest != {}
        invariant G.Sized() && MergeState(prog, depths, G.succ, G.pred, live', instructions, rep')
        invariant |rep'| == |rep| == |instructions| == |prog|
        invariant rest <= merge - {n} && n in live' && forall u :: u in instructions[n] <==> u in merge - rest
        invariant forall x :: x in rest ==>
          x in live' && instructions[x] == [x] && forall u :: u in merge - rest ==> u < x
        invariant forall x: nat :: x < |prog| && x !in merge ==>
          instructions[x] == old(instructions)[x] && (x in live' <==> x in live)
        invariant forall x: nat :: x < |prog| && rep[x] !in merge ==> rep'[x] == rep[x]
        invariant forall u: nat, v: nat :: u < |prog| && v < |prog| && rep[u] == rep[v] ==> rep'[u] == rep'[v]
        decreases |rest|
      {
        var i := Smallest(rest);
        ghost var succ0, pred0 := G.succ, G.pred;
        StateSizes(prog, depths, succ0, pred0, live', instructions, rep');
        NoLoop(prog, depths, succ0, pred0, live', instructions, rep', i);
        MergeNodes(n, i, live');
        MergeStep(prog, depths, succ0, pred0, live', instructions, rep', n, i, G.succ, G.pred);
        instructions := instructions[n := instructions[n] + instructions[i]][i := []];
        live', rep' := live' - {i}, Redirect(rep', n, i);
        rest := rest - {i};
      }
      StateSizes(prog, depths, G.succ, G.pred, live', instructions, rep');
      MembersOf(prog, depths, G.succ, G.pred, live', instructions, rep', n);
    }

    /** The open nodes by depth. */
    method NodesByDepth() returns (merges: map<nat, set<nat>>)
      requires forall v :: v in openNodes ==> v < |depths|
      ensures DepthTable(depths, merges, openNodes)
    {
      hide DepthTable;
      NoDepths(depths);
      merges := map[];
      var depths, openNodes := this.depths, this.openNodes;
      var seen: set<nat>, todo := {}, openNodes;
      while todo != {}
        invariant seen + todo == openNodes && DepthTable(depths, merges, seen)
        decreases |todo|
      {
        var node :| node in todo;
        var d := depths[node];
        DepthTableGrows(depths, merges, seen, node);
        merges := merges[d := (if d in merges then merges[d] else {}) + {node}];
        seen, todo := seen + {node}, todo - {node};
      }
    }

    ghost predicate ReadyToMerge()
      reads this, G
    {
      && Analysed(|prog|) && Separate(prog)
      && |instructions| == |prog| && forall i :: 0 <= i < |prog| ==> instructions[i] == [i]
    }

    /** Each depth is merged into one node. */
    method MergeAll(merges: map<nat, set<nat>>) returns (ghost live: set<nat>, ghost rep: seq<nat>)
      requires ReadyToMerge() && DepthTable(depths, merges, openNodes)
      modifies G, `instructions
      ensures MergeState(prog, depths, G.succ, G.pred, live, instructions, rep)
      ensures SameRep(depths, openNodes, {}, rep)
    {
      hide MergeState, DepthsRise, GraphOf;
      live, rep := Nodes(|prog|), Identity(|prog|);
      MergingStarts(prog, depths, G.succ, G.pred, instructions);
      var todo := merges.Keys;
      while todo != {}
        invariant G.Sized() && todo <= merges.Keys && MergeState(prog, depths, G.succ, G.pred, live, instructions, rep)
        invariant Waiting(depths, openNodes, todo, live, instructions, rep) && SameRep(depths, openNodes, todo, rep)
        decreases |todo|
      {
        var d := Smallest(todo);
        var merge := merges[d];
        AtOneDepth(prog, depths, roundType, merges, openNodes, d);
        StateSizes(prog, depths, G.succ, G.pred, live, instructions, rep);
        ghost var live0, groups0, rep0 := live, instructions, rep;
        live, rep := DoMerge(merge, live, rep);
        StateSizes(prog, depths, G.succ, G.pred, live, instructions, rep);
        DepthDone(depths, merges, openNodes, todo, d, live0, groups0, rep0, live, instructions, rep);
        todo := todo - {d};
      }
    }

    /** longest_paths_merge: the new instruction list computes what the old one did, and the result counts the
        rounds. */
    method LongestPathsMerge() returns (rounds: nat)
      requires ReadyToMerge()
      modifies this, G
      ensures depths == old(depths)
      ensures Scheduled(prog, depths, instructions)
      ensures rounds == |OpenDepths(prog, depths)|
      ensures IsLongest(prog, rounds, OneClass(prog) && maxParallel == 0)
      ensures Placed(prog, |prog|, depths, maxParallel) && Replayed(prog, depths, maxParallel)
      ensures rounds == 0 ==> instructions == old(instructions)
    {
      hide Scheduled, IsLongest, DepthTable, MergeState, Placed, Tight, RoundTable, Turns;
      assert Replayed(prog, depths, maxParallel);
      if OneClass(prog) && maxParallel == 0 { OneClassIsTight(prog, depths); }
      RoundsAreLongest(prog, depths, OneClass(prog) && maxParallel == 0);
      if openNodes == {} {
        Unmerged(prog, depths, instructions);
        return 0;
      }
      var merges := NodesByDepth();
      DepthTableKeys(prog, depths, merges, openNodes);
      rounds := |merges.Keys|;
      SomeDepth(depths, merges, openNodes);
      ghost var live, rep := MergeAll(merges);
      SortAndKeep(live, rep);
    }

    method SortAndKeep(ghost live: set<nat>, ghost rep: seq<nat>)
      requires MergeState(prog, depths, G.succ, G.pred, live, instructions, rep) && OneRepPerDepth(prog, depths, rep)
      modifies `instructions
      ensures Scheduled(prog, depths, instructions)
    {
      AscendingIsAcyclic(prog, depths, G.succ);
      var sorted := TopologicalSort(G.succ);
      SortedIsFaithful(prog, depths, G.succ, G.pred, live, instructions, rep, sorted.order);
      CollectedAlike(prog, depths, live, instructions, rep, sorted.order);
      KeepRemaining(sorted.order);
      KeepsMeaning(prog, instructions);
    }

    method KeepRemaining(order: seq<nat>)
      requires forall k :: 0 <= k < |order| ==> order[k] < |instructions|
      modifies `instructions
      ensures instructions == Collect(old(instructions), order)
    {
      var kept: seq<seq<nat>> := [];
      for k := 0 to |order|
        invariant kept == Collect(instructions, order[..k])
      {
        assert order[..k + 1][..k] == order[..k];
        if instructions[order[k]] != [] {
          kept := kept + [instructions[order[k]]];
        }
      }
      assert order[..|order|] == order;
      instructions := kept;
    }
  }

  /** A basic block is analysed and merged: the schedule means the same as the block and respects its conflicts. Every
      instruction to be merged is in the first round above its dependencies that has its merge id and room for it, as
      far as shortcuts do not pass rounds barred to its kind; nothing is passed wrongly if kinds have one merge id each
      or the classes of the block are simple. There are as many rounds as merged instructions in some chain if all can
      share rounds without limit. */
  method Optimize(prog: seq<Instr>, maxParallel: nat) returns (sched: seq<seq<nat>>, rounds: nat, depths: seq<nat>)
    requires Separate(prog)
    ensures Scheduled(prog, depths, sched)
    ensures rounds == |OpenDepths(prog, depths)|
    ensures IsLongest(prog, rounds, OneClass(prog) && maxParallel == 0)
    ensures Placed(prog, |prog|, depths, maxParallel) && Replayed(prog, depths, maxParallel)
    ensures rounds == 0 ==> |sched| == |prog| && forall v :: 0 <= v < |prog| ==> sched[v] == [v]
    ensures KindsUniform(prog) ==> AllLeast(prog, depths, maxParallel)
    ensures forall classes {:trigger OfClasses(prog, classes)} ::
      OfClasses(prog, classes) && Simple(classes, maxParallel) ==> AllLeast(prog, depths, maxParallel)
  {
    hide AllLeast, Simple, OfClasses;
    var merger := new Merger(prog, maxParallel);
    rounds := merger.LongestPathsMerge();
    sched, depths := merger.instructions, merger.depths;
    if KindsUniform(prog) {
      PlacedIsLeast(prog, depths, maxParallel);
    }
    forall classes {:trigger OfClasses(prog, classes)} | OfClasses(prog, classes) && Simple(classes, maxParallel)
      ensures AllLeast(prog, depths, maxParallel)
    {
      SimpleIsHarmless(classes, maxParallel);
    }
  }

  lemma PlacedIsLeast(prog: seq<Instr>, depths: seq<nat>, maxParallel: nat)
    requires Placed(prog, |prog|, depths, maxParallel) && KindsUniform(prog)
    ensures AllLeast(prog, depths, maxParallel)
  {
    forall v: nat {:trigger LeastRound(prog, depths, v, maxParallel)} | v < |prog| && prog[v].open
      ensures LeastRound(prog, depths, v, maxParallel)
    {
      assert PlacedAt(prog, depths, v, maxParallel);
      UniformIsLeast(prog, depths, v, maxParallel);
    }
  }

  /** Four independent instructions, two of which could share a round, get four rounds. */
  method FourRounds(first: Instr, kind: nat, a: nat, b: nat, limit: nat) returns (rounds: nat)
    requires InTheWay(first, a, b, limit)
    ensures rounds == 4
  {
    var sched, depths;
    sched, rounds, depths := Optimize(Four(first, kind, a, b), limit);
    ShortcutMissesRound(first, kind, a, b, limit);
    PlacementIsUnique(Four(first, kind, a, b), depths, [1, 2, 3, 4], limit);
    OpensOfFour(first, kind, a, b);
  }

  lemma OpensOfFour(first: Instr, kind: nat, a: nat, b: nat)
    requires first.open
    ensures OpenDepths(Four(first, kind, a, b), [1, 2, 3, 4]) == {1, 2, 3, 4}
  {
    var prog, depths := Four(first, kind, a, b), [1, 2, 3, 4];
    forall d: nat | d in {1, 2, 3, 4} ensures d in OpenDepths(prog, depths) {
      var v := d - 1;
      assert prog[v].open && depths[v] == d;
    }
  }
}
