/** When the shortcuts past blocked rounds are harmless. Some blocks get more rounds than they need; which ones cannot
    be
    met is decided by the kinds and merge ids that occur. */
module Shortcuts {
  import opened Instructions
  import opened Dependencies
  import opened Placement
  import opened Replay

  /** A kind and a merge id. */
  type Class = (nat, nat)

  /** What is merged is of these classes, and takes room. */
  ghost predicate OfClasses(prog: seq<Instr>, classes: set<Class>) {
    forall v :: 0 <= v < |prog| && prog[v].open ==> (prog[v].kind, prog[v].mergeId) in classes && prog[v].weight > 0
  }

  ghost predicate AllLeast(prog: seq<Instr>, depths: seq<nat>, limit: nat) {
    && |depths| == |prog|
    && forall v: nat {:trigger LeastRound(prog, depths, v, limit)} :: v < |prog| && prog[v].open ==>
         LeastRound(prog, depths, v, limit)
  }

  /** Every block of these classes has each instruction in the least round that fits. */
  ghost predicate Harmless(classes: set<Class>, limit: nat) {
    forall prog, depths :: OfClasses(prog, classes) && Replayed(prog, depths, limit) ==> AllLeast(prog, depths, limit)
  }

  ghost predicate Uniform(classes: set<Class>) {
    forall x, y :: x in classes && y in classes && x.0 == y.0 ==> x.1 == y.1
  }

  ghost predicate AmongTwo(classes: set<Class>, a: nat, b: nat) {
    forall x :: x in classes ==> x.1 == a || x.1 == b
  }

  ghost predicate TwoIds(classes: set<Class>) {
    exists a, b :: AmongTwo(classes, a, b)
  }

  /** One merge id in every kind, or one instruction in every round, or two merge ids and rounds without limit. */
  ghost predicate Simple(classes: set<Class>, limit: nat) {
    Uniform(classes) || limit == 1 || (limit == 0 && TwoIds(classes))
  }

  // ----- Shortcuts past blocked rounds only -----

  /** Before n, round d cannot take the merge id. */
  ghost predicate BlockedFor(prog: seq<Instr>, depths: seq<nat>, n: nat, d: nat, limit: nat, id: nat)
    requires n <= |prog| == |depths|
  {
    || FullAt(prog, depths, n, d, limit)
    || exists w: nat {:trigger InRound(prog, depths, w, d)} ::
         w < n && InRound(prog, depths, w, d) && prog[w].mergeId != id
  }

  /** Before n, round d has the merge id and no other. */
  ghost predicate Has(prog: seq<Instr>, depths: seq<nat>, n: nat, d: nat, id: nat)
    requires n <= |prog| == |depths|
  {
    && (exists w: nat {:trigger InRound(prog, depths, w, d)} :: w < n && InRound(prog, depths, w, d))
    && forall w: nat {:trigger InRound(prog, depths, w, d)} ::
         w < n && InRound(prog, depths, w, d) ==> prog[w].mergeId == id
  }

  /** The shortcut from d to e passes only rounds that cannot take the merge id, or cannot be taken with it. */
  ghost predicate Solid(prog: seq<Instr>, depths: seq<nat>, n: nat, limit: nat, id: nat, d: nat, e: nat)
    requires n <= |prog| == |depths|
  {
    || (forall r: nat :: d <= r < e ==> BlockedFor(prog, depths, n, r, limit, id))
    || (limit == 0 && Has(prog, depths, n, d, id))
  }

  ghost predicate TableSolid(prog: seq<Instr>, depths: seq<nat>, n: nat, classes: set<Class>, limit: nat, table: Table)
    requires n <= |prog| == |depths|
  {
    && (forall k: nat, d: nat {:trigger (k, d) in table} :: (k, d) in table ==> d < table[(k, d)])
    && forall k: nat, d: nat, id: nat {:trigger (k, d) in table, (k, id) in classes} ::
         (k, d) in table && (k, id) in classes ==> Solid(prog, depths, n, limit, id, d, table[(k, d)])
  }

  lemma BlockedForGrows(prog: seq<Instr>, depths: seq<nat>, n: nat, d: nat, limit: nat, id: nat)
    requires n < |prog| == |depths| && BlockedFor(prog, depths, n, d, limit, id)
    ensures BlockedFor(prog, depths, n + 1, d, limit, id)
  {
    assert WeightAt(prog, depths, n + 1, d) >= WeightAt(prog, depths, n, d);
  }

  lemma SolidGrows(prog: seq<Instr>, depths: seq<nat>, n: nat, limit: nat, id: nat, d: nat, e: nat)
    requires n < |prog| == |depths| && Solid(prog, depths, n, limit, id, d, e)
    requires prog[n].open ==> !BlockedAt(prog, depths, n, depths[n], limit)
    ensures Solid(prog, depths, n + 1, limit, id, d, e)
  {
    if limit == 0 && Has(prog, depths, n, d, id) {
      var w: nat :| w < n && InRound(prog, depths, w, d);
      assert Has(prog, depths, n + 1, d, id);
    } else {
      var m := n + 1;
      forall r: nat | d <= r < e ensures BlockedFor(prog, depths, m, r, limit, id) {
        BlockedForGrows(prog, depths, n, r, limit, id);
      }
    }
  }

  lemma {:induction false} WeightOfOne(prog: seq<Instr>, depths: seq<nat>, n: nat, d: nat, w: nat)
    requires w < n <= |prog| == |depths| && InRound(prog, depths, w, d)
    ensures WeightAt(prog, depths, n, d) >= prog[w].weight
  {
    if w < n - 1 {
      WeightOfOne(prog, depths, n - 1, d, w);
    }
  }

  /** What v skips is blocked for its merge id; for other merge ids of its kind see the three cases. */
  lemma SkippedIsSolid(prog: seq<Instr>, depths: seq<nat>, v: nat, classes: set<Class>, limit: nat, id: nat, d: nat,
                       e: nat)
    requires v < |prog| == |depths| && prog[v].open && OfClasses(prog, classes) && Simple(classes, limit) && d < e
    requires forall w: nat {:trigger prog[w]} :: w < v && prog[w].open ==> !BlockedAt(prog, depths, w, depths[w], limit)
    requires forall r: nat :: d <= r < e ==> BlockedAt(prog, depths, v, r, limit)
    requires (prog[v].kind, id) in classes
    ensures Solid(prog, depths, v, limit, id, d, e)
  {
    if id == prog[v].mergeId {
      forall r: nat | d <= r < e ensures BlockedFor(prog, depths, v, r, limit, id) {
        assert BlockedAt(prog, depths, v, r, limit);
      }
    } else if limit == 1 {
      forall r: nat | d <= r < e ensures BlockedFor(prog, depths, v, r, limit, id) {
        assert BlockedAt(prog, depths, v, r, limit);
        if OtherAt(prog, depths, v, r) {
          var w: nat :| w < v && InRound(prog, depths, w, r) && prog[w].mergeId != prog[v].mergeId;
          WeightOfOne(prog, depths, v, r, w);
        }
      }
    } else {
      OnlyOther(prog, depths, v, classes, id, d);
    }
  }

  lemma OnlyOther(prog: seq<Instr>, depths: seq<nat>, v: nat, classes: set<Class>, id: nat, d: nat)
    requires v < |prog| == |depths| && prog[v].open && OfClasses(prog, classes) && TwoIds(classes)
    requires forall w: nat {:trigger prog[w]} :: w < v && prog[w].open ==> !BlockedAt(prog, depths, w, depths[w], 0)
    requires BlockedAt(prog, depths, v, d, 0) && (prog[v].kind, id) in classes && id != prog[v].mergeId
    ensures Has(prog, depths, v, d, id)
  {
    var a, b :| AmongTwo(classes, a, b);
    var w: nat :| w < v && InRound(prog, depths, w, d) && prog[w].mergeId != prog[v].mergeId;
    assert (prog[v].kind, prog[v].mergeId) in classes && (prog[w].kind, prog[w].mergeId) in classes;
    assert prog[w].mergeId == id;
    forall u: nat | u < v && InRound(prog, depths, u, d) ensures prog[u].mergeId == id {
      var later, earlier := if u < w then w else u, if u < w then u else w;
      assert !OtherAt(prog, depths, later, d);
    }
  }

  // ----- A turn with solid shortcuts -----

  /** Everything between the first and the k-th round tried is blocked. */
  lemma {:induction false} TriedBlocked(prog: seq<Instr>, depths: seq<nat>, v: nat, classes: set<Class>, limit: nat,
                                        table: Table, path: seq<nat>, k: nat)
    requires v < |prog| == |depths| && prog[v].open && OfClasses(prog, classes)
    requires TableSolid(prog, depths, v, classes, limit, table)
    requires path != [] && Tried(prog, depths, v, limit, table, path[0], path) && k < |path|
    ensures path[0] <= path[k] && forall r: nat :: path[0] <= r < path[k] ==> BlockedAt(prog, depths, v, r, limit)
    ensures forall i :: 0 <= i < k ==> path[i] < path[k]
  {
    hide BlockedAt;
    if k > 0 {
      TriedBlocked(prog, depths, v, classes, limit, table, path, k - 1);
      assert BlockedAt(prog, depths, v, path[k - 1], limit);
      JumpBlocked(prog, depths, v, classes, limit, table, path[k - 1]);
    }
  }

  lemma JumpBlocked(prog: seq<Instr>, depths: seq<nat>, v: nat, classes: set<Class>, limit: nat, table: Table, d: nat)
    requires v < |prog| == |depths| && prog[v].open && OfClasses(prog, classes)
    requires TableSolid(prog, depths, v, classes, limit, table) && BlockedAt(prog, depths, v, d, limit)
    ensures var e := Jump(table, prog[v].kind, d);
            d < e && forall r: nat :: d <= r < e ==> BlockedAt(prog, depths, v, r, limit)
  {
    var kind, id := prog[v].kind, prog[v].mergeId;
    if (kind, d) in table {
      assert (kind, id) in classes;
      assert Solid(prog, depths, v, limit, id, d, table[(kind, d)]);
      assert !(limit == 0 && Has(prog, depths, v, d, id));
      forall r: nat | d <= r < table[(kind, d)] ensures BlockedAt(prog, depths, v, r, limit) {
        assert BlockedFor(prog, depths, v, r, limit, id);
      }
    }
  }

  lemma TurnIsLeast(prog: seq<Instr>, depths: seq<nat>, v: nat, classes: set<Class>, limit: nat, table: Table,
                    path: seq<nat>, table': Table)
    requires v < |prog| == |depths| && prog[v].open && OfClasses(prog, classes)
    requires TableSolid(prog, depths, v, classes, limit, table)
    requires Turn(prog, depths, v, limit, table, path, table')
    ensures LeastRound(prog, depths, v, limit)
  {
    hide BlockedAt, TableSolid;
    TriedBlocked(prog, depths, v, classes, limit, table, path, |path| - 1);
    assert Above(prog, depths, v, path[0]);
    forall d: nat {:trigger Above(prog, depths, v, d)} | Above(prog, depths, v, d) && d < depths[v]
      ensures BlockedAt(prog, depths, v, d, limit)
    {
      assert path[0] <= d;
    }
  }

  lemma TurnStaysSolid(prog: seq<Instr>, depths: seq<nat>, v: nat, classes: set<Class>, limit: nat, table: Table,
                       path: seq<nat>, table': Table)
    requires v < |prog| == |depths| && OfClasses(prog, classes) && Simple(classes, limit)
    requires forall w: nat {:trigger prog[w]} :: w <= v && prog[w].open ==>
      !BlockedAt(prog, depths, w, depths[w], limit)
    requires TableSolid(prog, depths, v, classes, limit, table)
    requires Turn(prog, depths, v, limit, table, path, table')
    ensures TableSolid(prog, depths, v + 1, classes, limit, table')
  {
    hide BlockedAt, Solid, Simple;
    if prog[v].open {
      TriedBlocked(prog, depths, v, classes, limit, table, path, |path| - 1);
    }
    forall k: nat, d: nat | (k, d) in table' ensures d < table'[(k, d)] {
      assert (k, d) in table' ==> !prog[v].open || (k == prog[v].kind && d in path[..|path| - 1]) || (k, d) in table;
    }
    forall k: nat, d: nat, id: nat {:trigger (k, d) in table', (k, id) in classes} |
      (k, d) in table' && (k, id) in classes
      ensures Solid(prog, depths, v + 1, limit, id, d, table'[(k, d)])
    {
      if prog[v].open && k == prog[v].kind && d in Elements(path[..|path| - 1]) {
        var i :| 0 <= i < |path| - 1 && path[i] == d;
        TriedBlocked(prog, depths, v, classes, limit, table, path, i);
        SkippedIsSolid(prog, depths, v, classes, limit, id, d, depths[v]);
        SolidGrows(prog, depths, v, limit, id, d, depths[v]);
      } else {
        assert (k, d) in table;
        SolidGrows(prog, depths, v, limit, id, d, table[(k, d)]);
      }
    }
  }

  lemma {:induction false} RunIsSolid(prog: seq<Instr>, n: nat, depths: seq<nat>, classes: set<Class>, limit: nat,
                                      tables: seq<Table>, paths: seq<seq<nat>>)
    requires Turns(prog, |prog|, depths, limit, tables, paths) && n <= |prog|
    requires OfClasses(prog, classes) && Simple(classes, limit)
    ensures TableSolid(prog, depths, n, classes, limit, tables[n])
    ensures forall v: nat {:trigger prog[v]} :: v < n && prog[v].open ==> LeastRound(prog, depths, v, limit)
  {
    if n > 0 {
      hide TableSolid, Simple, BlockedAt, Turn, LeastRound, OfClasses;
      var v := n - 1;
      RunIsSolid(prog, v, depths, classes, limit, tables, paths);
      assert Turn(prog, depths, v, limit, tables[v], paths[v], tables[v + 1]);
      if prog[v].open {
        TurnIsLeast(prog, depths, v, classes, limit, tables[v], paths[v], tables[n]);
      }
      TurnStaysSolid(prog, depths, v, classes, limit, tables[v], paths[v], tables[n]);
    }
  }

  lemma SimpleIsHarmless(classes: set<Class>, limit: nat)
    requires Simple(classes, limit)
    ensures Harmless(classes, limit)
  {
    forall prog, depths | OfClasses(prog, classes) && Replayed(prog, depths, limit)
      ensures AllLeast(prog, depths, limit)
    {
      var tables, paths :| Turns(prog, |prog|, depths, limit, tables, paths);
      RunIsSolid(prog, |prog|, depths, classes, limit, tables, paths);
    }
  }

  // ----- A round that is missed -----

  function Merged(kind: nat, mergeId: nat, weight: nat): Instr {
    Instr([], [], 0, (inputs: seq<int>, log: seq<Event>, k: nat) => 0, Silent, true, kind, mergeId, weight)
  }

  /** Independent instructions; the last three are of one kind, the second and the last of one merge id. */
  function Four(first: Instr, kind: nat, a: nat, b: nat): seq<Instr> {
    [first, Merged(kind, a, 1), Merged(kind, b, 1), Merged(kind, a, 1)]
  }

  /** The first instruction leaves no room in its round for the other three. */
  ghost predicate InTheWay(first: Instr, a: nat, b: nat, limit: nat) {
    && first.open && first.defs == [] && first.uses == [] && first.channel == Silent
    && a != b && limit != 1 && if limit == 0 then first.mergeId != a && first.mergeId != b else first.weight >= limit
  }

  lemma NothingBefore(first: Instr, kind: nat, a: nat, b: nat, depths: seq<nat>, v: nat)
    requires first.defs == first.uses == [] && first.channel == Silent && |depths| == 4 && v < 4
    ensures First(Four(first, kind, a, b), depths, v, 1)
  {
    forall u: nat ensures !Dep(Four(first, kind, a, b), u, v) {
    }
  }

  lemma Weights(first: Instr, kind: nat, a: nat, b: nat, d: nat)
    requires first.open
    ensures var prog, depths := Four(first, kind, a, b), [1, 2, 3, 4];
            && WeightAt(prog, depths, 0, d) == 0
            && WeightAt(prog, depths, 1, d) == (if d == 1 then first.weight else 0)
            && WeightAt(prog, depths, 2, d) == (if d == 1 then first.weight else if d == 2 then 1 else 0)
            && WeightAt(prog, depths, 3, d) == (if d == 1 then first.weight else if d == 2 || d == 3 then 1 else 0)
  {
    var prog, depths := Four(first, kind, a, b), [1, 2, 3, 4];
    assert WeightAt(prog, depths, 0, d) == 0;
    assert WeightAt(prog, depths, 1, d) == if d == 1 then first.weight else 0;
    assert WeightAt(prog, depths, 2, d) == WeightAt(prog, depths, 1, d) + if d == 2 then 1 else 0;
  }

  /** Which rounds are blocked when the four are in rounds 1 to 4. */
  lemma FourBlocked(first: Instr, kind: nat, a: nat, b: nat, limit: nat, v: nat, d: nat)
    requires InTheWay(first, a, b, limit) && v < 4
    ensures BlockedAt(Four(first, kind, a, b), [1, 2, 3, 4], v, d, limit) <==>
            (v > 0 && d == 1) || (v == 2 && d == 2) || (v == 3 && d == 3)
  {
    var prog, depths := Four(first, kind, a, b), [1, 2, 3, 4];
    Weights(first, kind, a, b, d);
    if 0 < d <= v {
      var w := d - 1;
      assert InRound(prog, depths, w, d);
    }
  }

  ghost function FourTables(kind: nat): seq<Table> {
    [map[], map[], map[(kind, 1) := 2], map[(kind, 1) := 3, (kind, 2) := 3],
     map[(kind, 1) := 4, (kind, 2) := 3, (kind, 3) := 4]]
  }

  ghost function FourPaths(): seq<seq<nat>> {
    [[1], [1, 2], [1, 2, 3], [1, 3, 4]]
  }

  lemma FourTurn(first: Instr, kind: nat, a: nat, b: nat, limit: nat, v: nat)
    requires InTheWay(first, a, b, limit) && v < 4
    ensures Turn(Four(first, kind, a, b), [1, 2, 3, 4], v, limit, FourTables(kind)[v], FourPaths()[v],
                 FourTables(kind)[v + 1])
  {
    hide BlockedAt, First;
    var prog, depths := Four(first, kind, a, b), [1, 2, 3, 4];
    var path := FourPaths()[v];
    NothingBefore(first, kind, a, b, depths, v);
    forall d: nat ensures BlockedAt(prog, depths, v, d, limit) <==>
        (v > 0 && d == 1) || (v == 2 && d == 2) || (v == 3 && d == 3)
    {
      FourBlocked(first, kind, a, b, limit, v, d);
    }
    assert path[..|path| - 1] == [[], [1], [1, 2], [1, 3]][v];
  }

  /** The fourth instruction jumps from round 1 to round 3, past round 2 with its own merge id, and opens a fourth
      round. */
  lemma ShortcutMissesRound(first: Instr, kind: nat, a: nat, b: nat, limit: nat)
    requires InTheWay(first, a, b, limit)
    ensures var prog := Four(first, kind, a, b);
            && Replayed(prog, [1, 2, 3, 4], limit) && !LeastRound(prog, [1, 2, 3, 4], 3, limit)
  {
    hide Turn, BlockedAt;
    var prog, depths := Four(first, kind, a, b), [1, 2, 3, 4];
    forall v: nat | v < 4
      ensures Turn(prog, depths, v, limit, FourTables(kind)[v], FourPaths()[v], FourTables(kind)[v + 1])
    {
      FourTurn(first, kind, a, b, limit, v);
    }
    assert Turns(prog, |prog|, depths, limit, FourTables(kind), FourPaths());
    NothingBefore(first, kind, a, b, depths, 3);
    FourBlocked(first, kind, a, b, limit, 3, 2);
    assert Above(prog, depths, 3, 2);
  }

  /** Three rounds would do: with the fourth instruction in round 2, all are in the least round that fits. */
  lemma ThreeRoundsWouldDo(first: Instr, kind: nat, a: nat, b: nat, limit: nat)
    requires InTheWay(first, a, b, limit)
    ensures AllLeast(Four(first, kind, a, b), [1, 2, 3, 2], limit)
  {
    hide BlockedAt;
    var prog, depths, depths' := Four(first, kind, a, b), [1, 2, 3, 4], [1, 2, 3, 2];
    forall v: nat | v < 4 ensures LeastRound(prog, depths', v, limit) {
      NothingBefore(first, kind, a, b, depths', v);
      forall d: nat
        ensures BlockedAt(prog, depths', v, d, limit) <==>
                (v > 0 && d == 1) || (v == 2 && d == 2) || (v == 3 && d == 3)
      {
        PassedKept(prog, depths, depths', v, d, limit);
        FourBlocked(first, kind, a, b, limit, v, d);
      }
      FirstIsLowest(prog, depths', v);
    }
  }

  lemma FirstIsLowest(prog: seq<Instr>, depths: seq<nat>, v: nat)
    requires v < |prog| == |depths| && First(prog, depths, v, 1)
    ensures forall d: nat {:trigger Above(prog, depths, v, d)} :: Above(prog, depths, v, d) <==> d > 0
  {
    assert Above(prog, depths, v, 1);
  }

  /** Otherwise some block of these classes has an instruction past the first round that fits. */
  lemma OtherwiseHarmful(classes: set<Class>, limit: nat)
    requires !Simple(classes, limit)
    ensures !Harmless(classes, limit)
  {
    var x, y :| x in classes && y in classes && x.0 == y.0 && x.1 != y.1;
    var z := x;
    if limit == 0 {
      assert !AmongTwo(classes, x.1, y.1);
      z :| z in classes && z.1 != x.1 && z.1 != y.1;
    }
    var first := Merged(z.0, z.1, if limit == 0 then 1 else limit);
    var prog := Four(first, x.0, x.1, y.1);
    ShortcutMissesRound(first, x.0, x.1, y.1, limit);
    assert OfClasses(prog, classes);
    assert !AllLeast(prog, [1, 2, 3, 4], limit);
  }

  /** The first round that fits is found in every block of these classes exactly if the classes are simple. */
  lemma HarmlessIfSimple(classes: set<Class>, limit: nat)
    ensures Harmless(classes, limit) <==> Simple(classes, limit)
  {
    if Simple(classes, limit) {
      SimpleIsHarmless(classes, limit);
    } else {
      OtherwiseHarmful(classes, limit);
    }
  }
}
