/** What merging instructions of one depth keeps, and why the sorted result is the original program. */
module Merging {
  import opened Counting
  import opened Instructions
  import opened Digraph
  import opened SparseGraph
  import opened Dependencies
  import opened Rounds

  // ----- The order of nodes -----

  /** By depth; within a depth open instructions come before all others, and those are in program order. */
  ghost predicate Below(prog: seq<Instr>, depths: seq<nat>, x: nat, y: nat)
    requires x < |prog| == |depths| && y < |prog|
  {
    depths[x] < depths[y] || (depths[x] == depths[y] && !prog[y].open && (prog[x].open || x < y))
  }

  /** Instructions that may be merged. */
  ghost predicate Peers(prog: seq<Instr>, depths: seq<nat>, x: nat, y: nat)
    requires x < |prog| == |depths| && y < |prog|
  {
    prog[x].open && prog[y].open && depths[x] == depths[y] && prog[x].mergeId == prog[y].mergeId
  }

  ghost function Key(prog: seq<Instr>, depths: seq<nat>, x: nat): int
    requires x < |prog| == |depths|
  {
    depths[x] * (|prog| + 1) + if prog[x].open then 0 else x + 1
  }

  lemma {:induction false} Multiples(a: nat, b: nat, m: nat, r: nat)
    requires a < b && r < m
    ensures a * m + r < b * m
  {
    if b > a + 1 {
      Multiples(a, b - 1, m, r);
    }
  }

  lemma BelowKeys(prog: seq<Instr>, depths: seq<nat>, x: nat, y: nat)
    requires x < |prog| == |depths| && y < |prog| && Below(prog, depths, x, y)
    ensures Key(prog, depths, x) < Key(prog, depths, y)
  {
    if depths[x] < depths[y] {
      Multiples(depths[x], depths[y], |prog| + 1, if prog[x].open then 0 else x + 1);
    }
  }

  ghost predicate Ascends(prog: seq<Instr>, depths: seq<nat>, succ: seq<seq<nat>>) {
    && |prog| == |depths| == |succ|
    && forall x: nat, y: nat {:trigger Edge(succ, x, y)} :: Edge(succ, x, y) ==> y < |prog| && Below(prog, depths, x, y)
  }

  /** Edges that all go up leave no room for a cycle, removed nodes included. */
  lemma AscendingIsAcyclic(prog: seq<Instr>, depths: seq<nat>, succ: seq<seq<nat>>)
    requires Ascends(prog, depths, succ)
    ensures NodesInRange(succ) && Acyclic(succ)
  {
    var rank := seq(|prog|, x requires 0 <= x < |prog| => Key(prog, depths, x));
    forall u: nat, v: nat | u < |rank| && v < |rank| && Edge(succ, u, v) ensures rank[u] < rank[v] {
      BelowKeys(prog, depths, u, v);
    }
    forall u, v: nat | 0 <= u < |succ| && v in succ[u] ensures v < |succ| {
      assert Edge(succ, u, v);
    }
    RankedIsAcyclic(succ, rank);
  }

  // ----- The state while merging -----

  ghost predicate Ascending(s: seq<nat>) {
    forall i, j :: 0 <= i < j < |s| ==> s[i] < s[j]
  }

  /** Instruction u is in the group of its representative, which is live, and merged only with its peers. */
  ghost predicate Represented(prog: seq<Instr>, depths: seq<nat>, live: set<nat>, groups: seq<seq<nat>>, rep: seq<nat>,
                              u: nat)
    requires |prog| == |depths| == |groups| == |rep| && u < |prog|
  {
    && rep[u] < |prog| && rep[u] in live && u in groups[rep[u]]
    && (rep[u] == u || Peers(prog, depths, u, rep[u]))
  }

  /** The group of node a: ascending, its members have a as representative, and it is empty just when a is removed. */
  ghost predicate GroupOf(live: set<nat>, groups: seq<seq<nat>>, rep: seq<nat>, a: nat)
    requires |groups| == |rep| && a < |groups|
  {
    && Ascending(groups[a])
    && (forall u :: u in groups[a] ==> u < |rep| && rep[u] == a)
    && (a in live <==> a in groups[a]) && (a !in live ==> groups[a] == [])
  }

  ghost predicate Grouped(prog: seq<Instr>, depths: seq<nat>, live: set<nat>, groups: seq<seq<nat>>, rep: seq<nat>) {
    && |prog| == |depths| == |groups| == |rep|
    && (forall u: nat :: u < |prog| ==> Represented(prog, depths, live, groups, rep, u))
    && (forall a: nat :: a < |prog| ==> GroupOf(live, groups, rep, a))
  }

  /** Every dependency survives between representatives. */
  ghost predicate Covers(prog: seq<Instr>, succ: seq<seq<nat>>, rep: seq<nat>) {
    && |rep| == |prog|
    && forall u: nat, v: nat {:trigger Dep(prog, u, v)} :: u < v < |prog| && Dep(prog, u, v) ==>
         Edge(succ, rep[u], rep[v])
  }

  ghost predicate MergeState(prog: seq<Instr>, depths: seq<nat>, succ: seq<seq<nat>>, pred: seq<set<nat>>,
                             live: set<nat>, groups: seq<seq<nat>>, rep: seq<nat>) {
    && Ascends(prog, depths, succ) && InStep(succ, pred, live)
    && Grouped(prog, depths, live, groups, rep) && Covers(prog, succ, rep)
  }

  lemma StateSizes(prog: seq<Instr>, depths: seq<nat>, succ: seq<seq<nat>>, pred: seq<set<nat>>, live: set<nat>,
                   groups: seq<seq<nat>>, rep: seq<nat>)
    requires MergeState(prog, depths, succ, pred, live, groups, rep)
    ensures |prog| == |depths| == |groups| == |rep| == |succ|
  {
  }

  lemma MembersOf(prog: seq<Instr>, depths: seq<nat>, succ: seq<seq<nat>>, pred: seq<set<nat>>, live: set<nat>,
                  groups: seq<seq<nat>>, rep: seq<nat>, a: nat)
    requires MergeState(prog, depths, succ, pred, live, groups, rep) && a < |prog|
    ensures a < |groups| && forall u :: u in groups[a] ==> u < |rep| && rep[u] == a
  {
    assert GroupOf(live, groups, rep, a);
  }

  lemma NoLoop(prog: seq<Instr>, depths: seq<nat>, succ: seq<seq<nat>>, pred: seq<set<nat>>, live: set<nat>,
               groups: seq<seq<nat>>, rep: seq<nat>, i: nat)
    requires MergeState(prog, depths, succ, pred, live, groups, rep) && i < |succ|
    ensures InStep(succ, pred, live) && i !in succ[i]
  {
    assert !Edge(succ, i, i);
  }

  ghost function Identity(n: nat): (r: seq<nat>)
    ensures |r| == n && forall k :: 0 <= k < n ==> r[k] == k
  {
    UpTo(n)
  }

  ghost function Nodes(n: nat): (s: set<nat>)
    ensures forall x: nat :: x in s <==> x < n
  {
    if n == 0 then {} else Nodes(n - 1) + {n - 1}
  }

  lemma MergingStarts(prog: seq<Instr>, depths: seq<nat>, succ: seq<seq<nat>>, pred: seq<set<nat>>,
                      groups: seq<seq<nat>>)
    requires GraphOf(prog, |prog|, succ, pred) && DepthsRise(prog, |prog|, depths)
    requires |groups| == |prog| && forall i :: 0 <= i < |groups| ==> groups[i] == [i]
    ensures MergeState(prog, depths, succ, pred, Nodes(|prog|), groups, Identity(|prog|))
  {
    hide Ascends, Grouped, Covers, GraphOf;
    StartsAscending(prog, depths, succ, pred);
    StartsGrouped(prog, depths, groups);
    StartsCovered(prog, succ, pred);
    assert InStep(succ, pred, Nodes(|prog|)) by { StartsInStep(prog, succ, pred); }
  }

  lemma StartsAscending(prog: seq<Instr>, depths: seq<nat>, succ: seq<seq<nat>>, pred: seq<set<nat>>)
    requires GraphOf(prog, |prog|, succ, pred) && DepthsRise(prog, |prog|, depths)
    ensures Ascends(prog, depths, succ)
  {
    forall x: nat, y: nat {:trigger Edge(succ, x, y)} | Edge(succ, x, y)
      ensures y < |prog| && Below(prog, depths, x, y)
    {
      assert y in succ[x] && x in pred[y] && Dep(prog, x, y);
      DependencyIsConflict(prog, x, y);
    }
  }

  lemma StartsInStep(prog: seq<Instr>, succ: seq<seq<nat>>, pred: seq<set<nat>>)
    requires GraphOf(prog, |prog|, succ, pred)
    ensures InStep(succ, pred, Nodes(|prog|))
  {
  }

  lemma StartsGrouped(prog: seq<Instr>, depths: seq<nat>, groups: seq<seq<nat>>)
    requires |groups| == |prog| == |depths| && forall i :: 0 <= i < |groups| ==> groups[i] == [i]
    ensures Grouped(prog, depths, Nodes(|prog|), groups, Identity(|prog|))
  {
  }

  lemma StartsCovered(prog: seq<Instr>, succ: seq<seq<nat>>, pred: seq<set<nat>>)
    requires GraphOf(prog, |prog|, succ, pred)
    ensures Covers(prog, succ, Identity(|prog|))
  {
    forall u: nat, v: nat {:trigger Dep(prog, u, v)} | u < v < |prog| && Dep(prog, u, v)
      ensures Edge(succ, Identity(|prog|)[u], Identity(|prog|)[v])
    {
      assert u in pred[v];
    }
  }

  // ----- One merge -----

  /** The graph after i has taken over the edges of j. */
  ghost predicate Contracted(succ: seq<seq<nat>>, succ': seq<seq<nat>>, live: set<nat>, i: nat, j: nat) {
    && |succ'| == |succ|
    && forall x: nat, y: nat {:trigger Edge(succ', x, y)} ::
      Edge(succ', x, y) <==>
        if x == j then Edge(succ, x, y) && y != i
        else if x !in live then Edge(succ, x, y)
        else y != j && (Edge(succ, x, y) || (x == i && y != i && Edge(succ, j, y)) ||
                        (y == i && x != i && Edge(succ, x, j)))
  }

  ghost function Redirect(rep: seq<nat>, i: nat, j: nat): (r: seq<nat>)
    ensures |r| == |rep|
  {
    seq(|rep|, u requires 0 <= u < |rep| => if rep[u] == j then i else rep[u])
  }

  lemma ContractedAscends(prog: seq<Instr>, depths: seq<nat>, succ: seq<seq<nat>>, succ': seq<seq<nat>>, live: set<nat>,
                          i: nat, j: nat)
    requires Ascends(prog, depths, succ) && Contracted(succ, succ', live, i, j)
    requires i < |prog| && j < |prog| && Peers(prog, depths, i, j)
    ensures Ascends(prog, depths, succ')
  {
    forall x: nat, y: nat {:trigger Edge(succ', x, y)} | Edge(succ', x, y)
      ensures y < |prog| && Below(prog, depths, x, y)
    {
      assert Edge(succ, x, y) || Edge(succ, j, y) || Edge(succ, x, j);
    }
  }

  lemma ContractedCovers(prog: seq<Instr>, depths: seq<nat>, succ: seq<seq<nat>>, succ': seq<seq<nat>>, live: set<nat>,
                         groups: seq<seq<nat>>, rep: seq<nat>, i: nat, j: nat)
    requires Ascends(prog, depths, succ) && Grouped(prog, depths, live, groups, rep) && Covers(prog, succ, rep)
    requires Contracted(succ, succ', live, i, j) && i in live
    requires i < |prog| && j < |prog| && i != j && Peers(prog, depths, i, j)
    ensures Covers(prog, succ', Redirect(rep, i, j))
  {
    var rep' := Redirect(rep, i, j);
    forall u: nat, v: nat {:trigger Dep(prog, u, v)} | u < v < |prog| && Dep(prog, u, v)
      ensures Edge(succ', rep'[u], rep'[v])
    {
      assert Edge(succ, rep[u], rep[v]);
      assert Represented(prog, depths, live, groups, rep, u) && Represented(prog, depths, live, groups, rep, v);
      assert Below(prog, depths, rep[u], rep[v]);
      assert rep'[u] == (if rep[u] == j then i else rep[u]) && rep'[v] == (if rep[v] == j then i else rep[v]);
    }
  }

  lemma ContractedGroups(prog: seq<Instr>, depths: seq<nat>, live: set<nat>, groups: seq<seq<nat>>, rep: seq<nat>,
                         i: nat, j: nat)
    requires Grouped(prog, depths, live, groups, rep) && i in live && j in live && i != j
    requires i < |prog| && j < |prog| && Peers(prog, depths, i, j) && groups[j] == [j]
    requires forall u :: u in groups[i] ==> u < j
    ensures Grouped(prog, depths, live - {j}, groups[i := groups[i] + groups[j]][j := []], Redirect(rep, i, j))
  {
    var live', groups', rep' := live - {j}, groups[i := groups[i] + groups[j]][j := []], Redirect(rep, i, j);
    forall u: nat | u < |prog| ensures Represented(prog, depths, live', groups', rep', u) {
      assert Represented(prog, depths, live, groups, rep, u);
      assert GroupOf(live, groups, rep, j);
    }
    forall a: nat | a < |prog| ensures GroupOf(live', groups', rep', a) {
      assert GroupOf(live, groups, rep, a) && GroupOf(live, groups, rep, j);
      if a == i {
        var g := groups[i] + [j];
        forall k, l | 0 <= k < l < |g| ensures g[k] < g[l] {
          assert k < |groups[i]| && groups[i][k] in groups[i];
        }
      }
    }
  }

  /** Merging two peers keeps everything that merging relies on. */
  lemma MergeStep(prog: seq<Instr>, depths: seq<nat>, succ: seq<seq<nat>>, pred: seq<set<nat>>, live: set<nat>,
                  groups: seq<seq<nat>>, rep: seq<nat>, i: nat, j: nat, succ': seq<seq<nat>>, pred': seq<set<nat>>)
    requires MergeState(prog, depths, succ, pred, live, groups, rep) && Contracted(succ, succ', live, i, j)
    requires InStep(succ', pred', live - {j})
    requires i in live && j in live && i != j && i < |prog| && j < |prog| && Peers(prog, depths, i, j)
    requires groups[j] == [j] && forall u :: u in groups[i] ==> u < j
    ensures MergeState(prog, depths, succ', pred', live - {j}, groups[i := groups[i] + groups[j]][j := []],
                       Redirect(rep, i, j))
  {
    ContractedAscends(prog, depths, succ, succ', live, i, j);
    ContractedCovers(prog, depths, succ, succ', live, groups, rep, i, j);
    ContractedGroups(prog, depths, live, groups, rep, i, j);
  }

  // ----- The sorted result -----

  /** The remaining instructions in the sorted order. */
  ghost function Collect(groups: seq<seq<nat>>, order: seq<nat>): seq<seq<nat>>
    requires forall k :: 0 <= k < |order| ==> order[k] < |groups|
  {
    if order == [] then [] else
      var n := |order| - 1;
      Collect(groups, order[..n]) + if groups[order[n]] == [] then [] else [groups[order[n]]]
  }

  ghost predicate RanksOrder(order: seq<nat>, rank: seq<int>) {
    forall k :: 0 <= k < |order| ==> order[k] < |rank| && rank[order[k]] == k
  }

  /** Position of an instruction: that of its representative. */
  ghost function RepRank(rank: seq<int>, rep: seq<nat>): (r: seq<int>)
    requires forall u :: 0 <= u < |rep| ==> rep[u] < |rank|
    ensures |r| == |rep|
  {
    seq(|rep|, u requires 0 <= u < |rep| => rank[rep[u]])
  }

  /** The first k nodes of the order contribute exactly the instructions they represent, conflicting ones in place. */
  ghost predicate PrefixGood(prog: seq<Instr>, repRank: seq<int>, flat: seq<nat>, k: nat) {
    && |repRank| == |prog| && Indexes(flat, |prog|) && Distinct(flat)
    && (forall u: nat :: u < |prog| ==> (u in flat <==> repRank[u] < k))
    && KeepsConflicts(prog, flat)
  }

  lemma AppendGroup(prog: seq<Instr>, repRank: seq<int>, flat: seq<nat>, k: nat, group: seq<nat>)
    requires PrefixGood(prog, repRank, flat, k) && Grows(prog, repRank)
    requires Indexes(group, |prog|) && Ascending(group)
    requires forall u: nat :: u < |prog| ==> (u in group <==> repRank[u] == k)
    ensures PrefixGood(prog, repRank, flat + group, k + 1) && PairwiseIndependent(prog, group)
  {
    var all := flat + group;
    forall i, j | 0 <= i < j < |all| ensures all[i] != all[j] {
      assert j >= |flat| ==> all[j] in group;
      assert i < |flat| ==> all[i] in flat;
    }
    forall i, j | 0 <= i < j < |all| && all[i] > all[j] ensures Independent(prog[all[j]], prog[all[i]]) {
      if j < |flat| {
        assert flat[i] > flat[j];
      } else if i < |flat| {
        assert all[j] in group && all[i] in flat;
        if !Independent(prog[all[j]], prog[all[i]]) {
          ConflictsAscend(prog, repRank, all[j], all[i]);
          assert false;
        }
      }
    }
    forall i, j | 0 <= i < j < |group| ensures Independent(prog[group[i]], prog[group[j]]) {
      assert group[i] in group && group[j] in group;
      if !Independent(prog[group[i]], prog[group[j]]) {
        ConflictsAscend(prog, repRank, group[i], group[j]);
        assert false;
      }
    }
  }

  lemma OrderRanks(n: nat, order: seq<nat>) returns (rank: seq<int>)
    requires Distinct(order) && forall x: nat :: x in order <==> x < n
    ensures |rank| == n && RanksOrder(order, rank)
    ensures forall x: nat :: x < n ==> 0 <= rank[x] < |order| && order[rank[x]] == x
  {
    rank := Positions(order, n);
    forall k | 0 <= k < |order| ensures order[k] < |rank| && rank[order[k]] == k {
      assert order[k] in order;
      assert order[rank[order[k]]] == order[k];
    }
  }

  /** Every instruction of the first k nodes once, conflicts in place, and each merged instruction made of
      independent parts. */
  ghost predicate GoodSchedule(prog: seq<Instr>, repRank: seq<int>, sched: seq<seq<nat>>, k: nat) {
    && AllIndexes(sched, |prog|)
    && PrefixGood(prog, repRank, Flatten(sched), k)
    && forall m :: 0 <= m < |sched| ==> PairwiseIndependent(prog, sched[m])
  }

  lemma AppendToSchedule(prog: seq<Instr>, repRank: seq<int>, sched: seq<seq<nat>>, k: nat, group: seq<nat>)
    requires GoodSchedule(prog, repRank, sched, k) && Grows(prog, repRank)
    requires Indexes(group, |prog|) && Ascending(group)
    requires forall u: nat :: u < |prog| ==> (u in group <==> repRank[u] == k)
    ensures GoodSchedule(prog, repRank, sched + if group == [] then [] else [group], k + 1)
  {
    hide PrefixGood, PairwiseIndependent, Grows;
    AppendGroup(prog, repRank, Flatten(sched), k, group);
    if group == [] {
      assert Flatten(sched) + group == Flatten(sched) && sched + [] == sched;
    } else {
      assert (sched + [group])[..|sched|] == sched;
    }
  }

  lemma EmptySchedule(prog: seq<Instr>, repRank: seq<int>)
    requires |repRank| == |prog| && forall u :: 0 <= u < |repRank| ==> repRank[u] >= 0
    ensures GoodSchedule(prog, repRank, [], 0)
  {
  }

  lemma {:induction false} CollectedIsGood(prog: seq<Instr>, depths: seq<nat>, live: set<nat>, groups: seq<seq<nat>>,
                                           rep: seq<nat>, order: seq<nat>, rank: seq<int>, k: nat)
    requires Grouped(prog, depths, live, groups, rep) && |rank| == |prog|
    requires RanksOrder(order, rank) && k <= |order| && (forall x :: 0 <= x < |rank| ==> rank[x] >= 0)
    requires forall u :: 0 <= u < |rep| ==> rep[u] < |rank|
    requires Grows(prog, RepRank(rank, rep))
    requires forall x: nat, y: nat :: x < |rank| && y < |rank| && rank[x] == rank[y] ==> x == y
    ensures GoodSchedule(prog, RepRank(rank, rep), Collect(groups, order[..k]), k)
  {
    if k == 0 {
      assert order[..0] == [];
      EmptySchedule(prog, RepRank(rank, rep));
    } else {
      CollectedIsGood(prog, depths, live, groups, rep, order, rank, k - 1);
      assert order[..k][..k - 1] == order[..k - 1];
      GroupMembers(prog, depths, live, groups, rep, rank, order[k - 1]);
      AppendToSchedule(prog, RepRank(rank, rep), Collect(groups, order[..k - 1]), k - 1, groups[order[k - 1]]);
    }
  }

  lemma GroupMembers(prog: seq<Instr>, depths: seq<nat>, live: set<nat>, groups: seq<seq<nat>>, rep: seq<nat>,
                     rank: seq<int>, a: nat)
    requires Grouped(prog, depths, live, groups, rep) && |rank| == |prog| && a < |prog|
    requires forall u :: 0 <= u < |rep| ==> rep[u] < |rank|
    requires forall x: nat, y: nat :: x < |rank| && y < |rank| && rank[x] == rank[y] ==> x == y
    ensures Indexes(groups[a], |prog|) && Ascending(groups[a])
    ensures forall u: nat :: u < |prog| ==> (u in groups[a] <==> RepRank(rank, rep)[u] == rank[a])
  {
    assert GroupOf(live, groups, rep, a);
    forall k | 0 <= k < |groups[a]| ensures groups[a][k] < |prog| {
      assert groups[a][k] in groups[a];
    }
    forall u: nat | u < |prog| ensures u in groups[a] <==> RepRank(rank, rep)[u] == rank[a] {
      assert Represented(prog, depths, live, groups, rep, u);
    }
  }

  /** Positions in a topological order of the merged graph grow along every dependency. */
  lemma SortedGrows(prog: seq<Instr>, succ: seq<seq<nat>>, rep: seq<nat>, order: seq<nat>, rank: seq<int>)
    requires Covers(prog, succ, rep) && TopologicalOrder(succ, order) && |succ| == |prog| == |rank|
    requires forall x: nat :: x < |rank| ==> 0 <= rank[x] < |order| && order[rank[x]] == x
    requires forall u :: 0 <= u < |rep| ==> rep[u] < |rank|
    ensures Grows(prog, RepRank(rank, rep))
  {
    var repRank := RepRank(rank, rep);
    forall u: nat, v: nat | u < v < |prog| && Dep(prog, u, v) ensures repRank[u] < repRank[v] {
      assert Edge(succ, rep[u], rep[v]);
      var i, j := rank[rep[u]], rank[rep[v]];
      assert order[i] == rep[u] && order[j] == rep[v];
    }
  }

  // ----- The meaning of the schedule -----

  /** Every instruction exactly once, conflicting instructions (those on one channel among them) in program order, and
      merged
      instructions independent. */
  ghost predicate Faithful(prog: seq<Instr>, sched: seq<seq<nat>>) {
    && AllIndexes(sched, |prog|) && Indexes(Flatten(sched), |prog|)
    && |Flatten(sched)| == |prog| && Distinct(Flatten(sched))
    && KeepsConflicts(prog, Flatten(sched))
    && forall m :: 0 <= m < |sched| ==> PairwiseIndependent(prog, sched[m])
  }

  /** A faithful schedule leaves every register, and every channel, as the original program does. */
  lemma FaithfulKeepsMeaning(prog: seq<Instr>, sched: seq<seq<nat>>, s: State)
    requires Faithful(prog, sched)
    ensures RunSchedule(prog, sched, s) == Run(prog, UpTo(|prog|), s)
  {
    ScheduleIsSequential(prog, sched, s);
    ReorderingKeepsMeaning(prog, Flatten(sched), |prog|, s);
  }

  lemma AllOnce(flat: seq<nat>, n: nat)
    requires Distinct(flat) && Indexes(flat, n) && forall u: nat :: u < n ==> u in flat
    ensures |flat| == n
  {
    var f: seq<int> := flat;
    DistinctFits(f, n);
    DistinctCardinality(f);
    var all := set x | x in f;
    assert Range(n) <= all;
    SubsetCardinality(Range(n), all);
  }

  /** Sorting the merged graph and dropping removed instructions gives a faithful schedule. */
  lemma SortedIsFaithful(prog: seq<Instr>, depths: seq<nat>, succ: seq<seq<nat>>, pred: seq<set<nat>>, live: set<nat>,
                         groups: seq<seq<nat>>, rep: seq<nat>, order: seq<nat>)
    requires MergeState(prog, depths, succ, pred, live, groups, rep) && TopologicalOrder(succ, order)
    ensures forall k :: 0 <= k < |order| ==> order[k] < |groups|
    ensures Faithful(prog, Collect(groups, order))
  {
    var rank := OrderRanks(|prog|, order);
    forall u | 0 <= u < |rep| ensures rep[u] < |rank| {
      assert Represented(prog, depths, live, groups, rep, u);
    }
    SortedGrows(prog, succ, rep, order, rank);
    CollectedIsGood(prog, depths, live, groups, rep, order, rank, |order|);
    assert order[..|order|] == order;
    GoodIsFaithful(prog, RepRank(rank, rep), Collect(groups, order), |order|);
  }

  lemma GoodIsFaithful(prog: seq<Instr>, repRank: seq<int>, sched: seq<seq<nat>>, k: nat)
    requires GoodSchedule(prog, repRank, sched, k) && forall u :: 0 <= u < |repRank| ==> repRank[u] < k
    ensures Faithful(prog, sched)
  {
    AllOnce(Flatten(sched), |prog|);
  }

  // ----- What is merged -----

  /** Merged instructions are of one type and depth and keep their order. */
  ghost predicate MergedAlike(prog: seq<Instr>, depths: seq<nat>, group: seq<nat>)
    requires |depths| == |prog| && Indexes(group, |prog|)
  {
    forall i, j :: 0 <= i < j < |group| ==> group[i] < group[j] && Peers(prog, depths, group[i], group[j])
  }

  /** Open instructions of one depth are merged into one instruction. */
  ghost predicate DepthMerged(prog: seq<Instr>, depths: seq<nat>, group: seq<nat>)
    requires |depths| == |prog| && Indexes(group, |prog|)
  {
    forall u: nat, v: nat :: u in group && v < |prog| && prog[u].open && prog[v].open && depths[u] == depths[v] ==>
      v in group
  }

  ghost predicate OneRepPerDepth(prog: seq<Instr>, depths: seq<nat>, rep: seq<nat>)
    requires |depths| == |prog| == |rep|
  {
    forall u: nat, v: nat :: u < |prog| && v < |prog| && prog[u].open && prog[v].open && depths[u] == depths[v] ==>
      rep[u] == rep[v]
  }

  lemma GroupIsAlike(prog: seq<Instr>, depths: seq<nat>, live: set<nat>, groups: seq<seq<nat>>, rep: seq<nat>, a: nat)
    requires Grouped(prog, depths, live, groups, rep) && a < |prog| && OneRepPerDepth(prog, depths, rep)
    ensures Indexes(groups[a], |prog|) && MergedAlike(prog, depths, groups[a]) && DepthMerged(prog, depths, groups[a])
  {
    assert GroupOf(live, groups, rep, a);
    forall k | 0 <= k < |groups[a]| ensures groups[a][k] < |prog| {
      assert groups[a][k] in groups[a];
    }
    forall i, j | 0 <= i < j < |groups[a]|
      ensures groups[a][i] < groups[a][j] && Peers(prog, depths, groups[a][i], groups[a][j])
    {
      assert groups[a][i] in groups[a] && groups[a][j] in groups[a];
      assert Represented(prog, depths, live, groups, rep, groups[a][i]);
      assert Represented(prog, depths, live, groups, rep, groups[a][j]);
    }
    forall u: nat, v: nat | u in groups[a] && v < |prog| && prog[u].open && prog[v].open && depths[u] == depths[v]
      ensures v in groups[a]
    {
      assert Represented(prog, depths, live, groups, rep, v);
    }
  }

  ghost predicate ScheduledAlike(prog: seq<Instr>, depths: seq<nat>, sched: seq<seq<nat>>) {
    && |depths| == |prog| && AllIndexes(sched, |prog|)
    && forall m :: 0 <= m < |sched| ==>
         sched[m] != [] && MergedAlike(prog, depths, sched[m]) && DepthMerged(prog, depths, sched[m])
  }

  lemma {:induction false} CollectedAlike(prog: seq<Instr>, depths: seq<nat>, live: set<nat>, groups: seq<seq<nat>>,
                                          rep: seq<nat>, order: seq<nat>)
    requires Grouped(prog, depths, live, groups, rep) && OneRepPerDepth(prog, depths, rep)
    requires forall k :: 0 <= k < |order| ==> order[k] < |groups|
    ensures ScheduledAlike(prog, depths, Collect(groups, order))
  {
    if order != [] {
      var n := |order| - 1;
      CollectedAlike(prog, depths, live, groups, rep, order[..n]);
      GroupIsAlike(prog, depths, live, groups, rep, order[n]);
    }
  }
}
