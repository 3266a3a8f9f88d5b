/** The placement of a whole block, turn by turn: it is determined by the instructions, and with several merge ids in
    one
    kind the shortcuts may miss the first round that fits. */
module Replay {
  import opened Instructions
  import opened Dependencies
  import opened Placement

  type Table = map<(nat, nat), nat>

  /** Round d is the first above everything v depends on. */
  ghost predicate First(prog: seq<Instr>, depths: seq<nat>, v: nat, d: nat)
    requires v < |prog| == |depths|
  {
    Above(prog, depths, v, d) && forall e: nat {:trigger Above(prog, depths, v, e)} :: e < d ==>
      !Above(prog, depths, v, e)
  }

  /** The turn of instruction v: the rounds it tries, and the shortcuts before and after. */
  ghost predicate Turn(prog: seq<Instr>, depths: seq<nat>, v: nat, maxParallel: nat, table: Table, path: seq<nat>,
                       table': Table)
    requires v < |prog| == |depths|
  {
    if !prog[v].open then
      path == [] && First(prog, depths, v, depths[v] + 1) && table' == table
    else
      && path != [] && First(prog, depths, v, path[0])
      && Search(prog, depths, v, maxParallel, table, path[0], path) && depths[v] == path[|path| - 1]
      && Remembered(table, table', prog[v].kind, Elements(path[..|path| - 1]), depths[v])
  }

  ghost predicate Turns(prog: seq<Instr>, n: nat, depths: seq<nat>, maxParallel: nat, tables: seq<Table>,
                        paths: seq<seq<nat>>) {
    && |paths| == n <= |prog| == |depths| && |tables| == n + 1 && tables[0] == map[]
    && forall v: nat {:trigger paths[v]} :: v < n ==>
         Turn(prog, depths, v, maxParallel, tables[v], paths[v], tables[v + 1])
  }

  /** The depths are those of the analysis from the first instruction on. */
  ghost predicate Replayed(prog: seq<Instr>, depths: seq<nat>, maxParallel: nat) {
    exists tables, paths :: Turns(prog, |prog|, depths, maxParallel, tables, paths)
  }

  // ----- One more turn -----

  lemma FirstKept(prog: seq<Instr>, depths: seq<nat>, depths': seq<nat>, v: nat, d: nat)
    requires v < |prog| == |depths| == |depths'| && forall w :: 0 <= w < v ==> depths'[w] == depths[w]
    ensures First(prog, depths', v, d) == First(prog, depths, v, d)
  {
    forall e: nat ensures Above(prog, depths', v, e) == Above(prog, depths, v, e) {
    }
  }

  lemma SearchKept(prog: seq<Instr>, depths: seq<nat>, depths': seq<nat>, v: nat, maxParallel: nat, table: Table,
                   path: seq<nat>)
    requires v < |prog| == |depths| == |depths'| && forall w :: 0 <= w < v ==> depths'[w] == depths[w]
    requires path != [] && Search(prog, depths, v, maxParallel, table, path[0], path)
    ensures Search(prog, depths', v, maxParallel, table, path[0], path)
  {
    hide BlockedAt, Passed, Jump;
    forall i {:trigger path[i]} | 0 <= i < |path|
      ensures BlockedAt(prog, depths', v, path[i], maxParallel) == BlockedAt(prog, depths, v, path[i], maxParallel)
    {
      PassedKept(prog, depths, depths', v, path[i], maxParallel);
    }
  }

  lemma TurnKept(prog: seq<Instr>, depths: seq<nat>, depths': seq<nat>, v: nat, maxParallel: nat, table: Table,
                 path: seq<nat>, table': Table)
    requires v < |prog| == |depths| == |depths'| && forall w :: 0 <= w <= v ==> depths'[w] == depths[w]
    requires Turn(prog, depths, v, maxParallel, table, path, table')
    ensures Turn(prog, depths', v, maxParallel, table, path, table')
  {
    hide First, Search, Remembered;
    if prog[v].open {
      FirstKept(prog, depths, depths', v, path[0]);
      SearchKept(prog, depths, depths', v, maxParallel, table, path);
    } else {
      FirstKept(prog, depths, depths', v, depths[v] + 1);
    }
  }

  lemma TurnsGrow(prog: seq<Instr>, n: nat, depths: seq<nat>, depths': seq<nat>, maxParallel: nat, tables: seq<Table>,
                  paths: seq<seq<nat>>, path: seq<nat>, table': Table)
    requires Turns(prog, n, depths, maxParallel, tables, paths) && n < |prog| == |depths'|
    requires forall w :: 0 <= w < n ==> depths'[w] == depths[w]
    requires Turn(prog, depths', n, maxParallel, tables[n], path, table')
    ensures Turns(prog, n + 1, depths', maxParallel, tables + [table'], paths + [path])
  {
    hide Turn;
    forall v: nat {:trigger paths[v]} | v < n
      ensures Turn(prog, depths', v, maxParallel, tables[v], paths[v], tables[v + 1])
    {
      TurnKept(prog, depths, depths', v, maxParallel, tables[v], paths[v], tables[v + 1]);
    }
  }

  // ----- The depths are determined -----

  lemma SameFirst(prog: seq<Instr>, depths: seq<nat>, v: nat, d: nat, e: nat)
    requires v < |prog| == |depths| && First(prog, depths, v, d) && First(prog, depths, v, e)
    ensures d == e
  {
  }

  /** Two searches from one round along the same shortcuts try the same rounds. */
  lemma {:induction false} SameSearch(prog: seq<Instr>, depths: seq<nat>, v: nat, maxParallel: nat, table: Table,
                                      p: seq<nat>, q: seq<nat>, k: nat)
    requires v < |prog| == |depths| && p != [] && q != [] && p[0] == q[0] && k < |p|
    requires Search(prog, depths, v, maxParallel, table, p[0], p)
    requires Search(prog, depths, v, maxParallel, table, q[0], q)
    ensures k < |q| && p[k] == q[k]
  {
    hide BlockedAt, Jump;
    if k > 0 {
      SameSearch(prog, depths, v, maxParallel, table, p, q, k - 1);
      assert BlockedAt(prog, depths, v, p[k - 1], maxParallel);
      assert q[k - 1] == p[k - 1];
    }
  }

  lemma SamePath(prog: seq<Instr>, depths: seq<nat>, v: nat, maxParallel: nat, table: Table, p: seq<nat>, q: seq<nat>)
    requires v < |prog| == |depths| && p != [] && q != [] && p[0] == q[0]
    requires Search(prog, depths, v, maxParallel, table, p[0], p)
    requires Search(prog, depths, v, maxParallel, table, q[0], q)
    ensures p == q
  {
    hide Search;
    forall k | 0 <= k < |p| ensures k < |q| && p[k] == q[k] {
      SameSearch(prog, depths, v, maxParallel, table, p, q, k);
    }
    SameSearch(prog, depths, v, maxParallel, table, p, q, |p| - 1);
    SameSearch(prog, depths, v, maxParallel, table, q, p, |q| - 1);
  }

  lemma SameRemembered(table: Table, a: Table, b: Table, kind: nat, skipped: set<nat>, depth: nat)
    requires Remembered(table, a, kind, skipped, depth) && Remembered(table, b, kind, skipped, depth)
    ensures a == b
  {
    forall key: (nat, nat) ensures (key in a <==> key in b) && (key in a ==> a[key] == b[key]) {
      assert key == (key.0, key.1);
      assert (key.0, key.1) in a || (key.0, key.1) !in a;
    }
  }

  lemma SameTurn(prog: seq<Instr>, depths: seq<nat>, depths': seq<nat>, v: nat, maxParallel: nat, table: Table,
                 p: seq<nat>, a: Table, q: seq<nat>, b: Table)
    requires v < |prog| == |depths| == |depths'| && forall w :: 0 <= w < v ==> depths'[w] == depths[w]
    requires Turn(prog, depths, v, maxParallel, table, p, a) && Turn(prog, depths', v, maxParallel, table, q, b)
    ensures depths'[v] == depths[v] && a == b
  {
    hide First, Search, Remembered;
    if prog[v].open {
      FirstKept(prog, depths, depths', v, q[0]);
      SameFirst(prog, depths, v, p[0], q[0]);
      SearchKept(prog, depths', depths, v, maxParallel, table, q);
      SamePath(prog, depths, v, maxParallel, table, p, q);
      SameRemembered(table, a, b, prog[v].kind, Elements(p[..|p| - 1]), depths[v]);
    } else {
      FirstKept(prog, depths, depths', v, depths'[v] + 1);
      SameFirst(prog, depths, v, depths[v] + 1, depths'[v] + 1);
    }
  }

  lemma {:induction false} SameTurns(prog: seq<Instr>, n: nat, depths: seq<nat>, depths': seq<nat>, maxParallel: nat,
                                     tables: seq<Table>, paths: seq<seq<nat>>, tables': seq<Table>,
                                     paths': seq<seq<nat>>)
    requires Turns(prog, |prog|, depths, maxParallel, tables, paths)
    requires Turns(prog, |prog|, depths', maxParallel, tables', paths')
    requires n <= |prog|
    ensures depths'[..n] == depths[..n] && tables'[n] == tables[n]
  {
    hide Turn;
    if n > 0 {
      var v := n - 1;
      SameTurns(prog, v, depths, depths', maxParallel, tables, paths, tables', paths');
      forall w | 0 <= w < v ensures depths'[w] == depths[w] {
        assert depths'[..v][w] == depths[..v][w];
      }
      SameTurn(prog, depths, depths', v, maxParallel, tables[v], paths[v], tables[n], paths'[v], tables'[n]);
    }
  }

  /** The block and the limit determine the round of every instruction. */
  lemma PlacementIsUnique(prog: seq<Instr>, depths: seq<nat>, depths': seq<nat>, maxParallel: nat)
    requires Replayed(prog, depths, maxParallel) && Replayed(prog, depths', maxParallel)
    ensures depths' == depths
  {
    var tables, paths :| Turns(prog, |prog|, depths, maxParallel, tables, paths);
    var tables', paths' :| Turns(prog, |prog|, depths', maxParallel, tables', paths');
    SameTurns(prog, |prog|, depths, depths', maxParallel, tables, paths, tables', paths');
    assert depths[..|prog|] == depths && depths'[..|prog|] == depths';
  }
}
