/** In which round an instruction waits to be merged: the first one above all it depends on that has its merge id and
    room for it, as far as the shortcuts past other rounds do not skip it. */
module Placement {
  import opened Instructions
  import opened Dependencies
  import opened Rounds

  // ----- What a round holds -----

  /** The weights of the open instructions before n in round d. */
  ghost function WeightAt(prog: seq<Instr>, depths: seq<nat>, n: nat, d: nat): nat
    requires n <= |prog| == |depths|
  {
    if n == 0 then 0 else
      WeightAt(prog, depths, n - 1, d) + if prog[n - 1].open && depths[n - 1] == d then prog[n - 1].weight else 0
  }

  /** The instructions before n have used up round d; a limit of 0 is none. */
  ghost predicate FullAt(prog: seq<Instr>, depths: seq<nat>, n: nat, d: nat, maxParallel: nat)
    requires n <= |prog| == |depths|
  {
    maxParallel > 0 && WeightAt(prog, depths, n, d) >= maxParallel
  }

  /** Instruction w is merged in round d. */
  ghost predicate InRound(prog: seq<Instr>, depths: seq<nat>, w: nat, d: nat)
    requires |prog| == |depths| && w < |prog|
  {
    prog[w].open && depths[w] == d
  }

  /** An instruction before n with another merge id than n's is in round d. */
  ghost predicate OtherAt(prog: seq<Instr>, depths: seq<nat>, n: nat, d: nat)
    requires n < |prog| == |depths|
  {
    exists w: nat {:trigger InRound(prog, depths, w, d)} ::
      w < n && InRound(prog, depths, w, d) && prog[w].mergeId != prog[n].mergeId
  }

  /** Round d cannot take instruction n. */
  ghost predicate BlockedAt(prog: seq<Instr>, depths: seq<nat>, n: nat, d: nat, maxParallel: nat)
    requires n < |prog| == |depths|
  {
    FullAt(prog, depths, n, d, maxParallel) || OtherAt(prog, depths, n, d)
  }

  /** An instruction u before n, of the given kind, found another merge id in round d. */
  ghost predicate MetOther(prog: seq<Instr>, depths: seq<nat>, n: nat, u: nat, d: nat, kind: nat)
    requires n <= |prog| == |depths|
  {
    u < n && prog[u].open && prog[u].kind == kind && OtherAt(prog, depths, u, d)
  }

  /** Round d is barred to the kind: it is full, or an instruction of the kind before n found another merge id there. */
  ghost predicate Barred(prog: seq<Instr>, depths: seq<nat>, n: nat, d: nat, maxParallel: nat, kind: nat)
    requires n <= |prog| == |depths|
  {
    || FullAt(prog, depths, n, d, maxParallel)
    || exists u: nat :: MetOther(prog, depths, n, u, d, kind)
  }

  /** Instruction n may pass round d by: it is blocked, or barred to the kind. */
  ghost predicate Passed(prog: seq<Instr>, depths: seq<nat>, n: nat, d: nat, maxParallel: nat)
    requires n < |prog| == |depths|
  {
    BlockedAt(prog, depths, n, d, maxParallel) || Barred(prog, depths, n, d, maxParallel, prog[n].kind)
  }

  // ----- The placement -----

  /** Round d is above everything v depends on. */
  ghost predicate Above(prog: seq<Instr>, depths: seq<nat>, v: nat, d: nat)
    requires v < |prog| == |depths|
  {
    d > 0 && forall u: nat {:trigger Dep(prog, u, v)} :: u < v && Dep(prog, u, v) ==> depths[u] < d
  }

  /** An instruction that is not merged has the depth of a dependency, or 0. One that is merged is in a round above its
      dependencies that is not blocked, and all such rounds before are passed by. */
  ghost predicate PlacedAt(prog: seq<Instr>, depths: seq<nat>, v: nat, maxParallel: nat)
    requires v < |prog| == |depths|
  {
    if !prog[v].open then
      depths[v] == 0 || exists u: nat {:trigger Dep(prog, u, v)} :: u < v && Dep(prog, u, v) && depths[v] == depths[u]
    else
      && Above(prog, depths, v, depths[v]) && !BlockedAt(prog, depths, v, depths[v], maxParallel)
      && forall d: nat {:trigger Above(prog, depths, v, d)} :: Above(prog, depths, v, d) && d < depths[v] ==>
           Passed(prog, depths, v, d, maxParallel)
  }

  ghost predicate Placed(prog: seq<Instr>, n: nat, depths: seq<nat>, maxParallel: nat) {
    && n <= |prog| == |depths|
    && forall v: nat {:trigger PlacedAt(prog, depths, v, maxParallel)} :: v < n ==>
         PlacedAt(prog, depths, v, maxParallel)
  }

  predicate SameKind(a: Instr, b: Instr) {
    a.open && b.open && a.kind == b.kind
  }

  /** Instructions of one kind have one merge id. */
  ghost predicate KindsUniform(prog: seq<Instr>) {
    forall u, v :: 0 <= u < |prog| && 0 <= v < |prog| && SameKind(prog[u], prog[v]) ==>
                     prog[u].mergeId == prog[v].mergeId
  }

  /** The round of v is the least above its dependencies that is not blocked. */
  ghost predicate LeastRound(prog: seq<Instr>, depths: seq<nat>, v: nat, maxParallel: nat)
    requires v < |prog| == |depths|
  {
    && Above(prog, depths, v, depths[v]) && !BlockedAt(prog, depths, v, depths[v], maxParallel)
    && forall d: nat {:trigger Above(prog, depths, v, d)} :: Above(prog, depths, v, d) && d < depths[v] ==>
         BlockedAt(prog, depths, v, d, maxParallel)
  }

  /** If kinds have one merge id each, shortcuts skip nothing that is not blocked. */
  lemma UniformIsLeast(prog: seq<Instr>, depths: seq<nat>, v: nat, maxParallel: nat)
    requires v < |prog| == |depths| && prog[v].open && PlacedAt(prog, depths, v, maxParallel) && KindsUniform(prog)
    ensures LeastRound(prog, depths, v, maxParallel)
  {
    forall d: nat {:trigger Above(prog, depths, v, d)} | Above(prog, depths, v, d) && d < depths[v]
      ensures BlockedAt(prog, depths, v, d, maxParallel)
    {
      if u: nat :| MetOther(prog, depths, v, u, d, prog[v].kind) {
        var w: nat :| w < u && InRound(prog, depths, w, d) && prog[w].mergeId != prog[u].mergeId;
        assert prog[u].mergeId == prog[v].mergeId;
      }
    }
  }

  // ----- One merge id, no limit -----

  /** All open instructions can share a round. */
  ghost predicate OneClass(prog: seq<Instr>) {
    forall u, v :: 0 <= u < |prog| && 0 <= v < |prog| && prog[u].open && prog[v].open ==>
      prog[u].mergeId == prog[v].mergeId
  }

  lemma OneClassBlocksNothing(prog: seq<Instr>, depths: seq<nat>, n: nat, d: nat)
    requires OneClass(prog) && n < |prog| == |depths| && prog[n].open
    ensures !Passed(prog, depths, n, d, 0)
  {
  }

  /** Then no depth is greater than the dependencies force it to be. */
  lemma OneClassIsTight(prog: seq<Instr>, depths: seq<nat>)
    requires OneClass(prog) && Placed(prog, |prog|, depths, 0)
    ensures Tight(prog, |prog|, depths)
  {
    forall v | 0 <= v < |prog| ensures TightAt(prog, v, depths) {
      assert PlacedAt(prog, depths, v, 0);
      if prog[v].open && depths[v] > 1 {
        var d := depths[v] - 1;
        OneClassBlocksNothing(prog, depths, v, d);
        assert !Above(prog, depths, v, d);
        var u: nat :| u < v && Dep(prog, u, v) && depths[u] >= d;
        assert depths[u] < depths[v];
      }
    }
  }

  // ----- The tables of the analysis -----

  function Taken(parallelOpen: map<nat, nat>, d: nat): nat {
    if d in parallelOpen then parallelOpen[d] else 0
  }

  /** A shortcut leads forward, past rounds barred to its kind. */
  ghost predicate LeadsOn(prog: seq<Instr>, depths: seq<nat>, n: nat, maxParallel: nat, kind: nat, d: nat, e: nat)
    requires n <= |prog| == |depths|
  {
    d < e && forall r: nat {:trigger Barred(prog, depths, n, r, maxParallel, kind)} :: d <= r < e ==>
               Barred(prog, depths, n, r, maxParallel, kind)
  }

  ghost predicate InUse(prog: seq<Instr>, depths: seq<nat>, n: nat, d: nat)
    requires n <= |prog| == |depths|
  {
    exists w: nat {:trigger InRound(prog, depths, w, d)} :: w < n && InRound(prog, depths, w, d)
  }

  /** All open instructions of a depth have the merge id of that round. */
  ghost predicate OneTypePerDepth(prog: seq<Instr>, n: nat, depths: seq<nat>, roundType: map<nat, nat>)
    requires n <= |prog| && n <= |depths|
  {
    forall v :: 0 <= v < n && prog[v].open ==> depths[v] in roundType && roundType[depths[v]] == prog[v].mergeId
  }

  /** Type and weight of every round in use by the instructions before n, and the shortcuts. */
  ghost predicate RoundTable(prog: seq<Instr>, n: nat, depths: seq<nat>, maxParallel: nat, roundType: map<nat, nat>,
                             parallelOpen: map<nat, nat>, nextAvailable: map<(nat, nat), nat>, top: nat)
  {
    && n <= |prog| == |depths|
    && (forall d :: d in roundType ==> d <= top)
    && (forall d :: d in parallelOpen ==> d <= top)
    && OneTypePerDepth(prog, n, depths, roundType)
    && (forall d: nat {:trigger InUse(prog, depths, n, d)} :: d in roundType ==> InUse(prog, depths, n, d))
    && (maxParallel > 0 ==> forall d: nat {:trigger Taken(parallelOpen, d)} ::
          Taken(parallelOpen, d) == WeightAt(prog, depths, n, d))
    && (forall k: nat, d: nat {:trigger nextAvailable[(k, d)]} :: (k, d) in nextAvailable ==>
          LeadsOn(prog, depths, n, maxParallel, k, d, nextAvailable[(k, d)]))
  }

  /** The tables tell whether a round is blocked. */
  lemma TableTells(prog: seq<Instr>, n: nat, depths: seq<nat>, maxParallel: nat, roundType: map<nat, nat>,
                   parallelOpen: map<nat, nat>, nextAvailable: map<(nat, nat), nat>, top: nat, d: nat)
    requires RoundTable(prog, n, depths, maxParallel, roundType, parallelOpen, nextAvailable, top) && n < |prog|
    ensures BlockedAt(prog, depths, n, d, maxParallel) <==>
            || (d in roundType && roundType[d] != prog[n].mergeId)
            || (maxParallel > 0 && d in parallelOpen && parallelOpen[d] >= maxParallel)
  {
    assert Taken(parallelOpen, d) == if d in parallelOpen then parallelOpen[d] else 0;
    if d in roundType {
      assert InUse(prog, depths, n, d);
      var w: nat :| w < n && InRound(prog, depths, w, d);
    }
  }

  // ----- One more instruction -----

  /** What is said about earlier instructions does not depend on the depth of a later one. */
  lemma {:induction false} WeightKept(prog: seq<Instr>, depths: seq<nat>, depths': seq<nat>, n: nat, d: nat)
    requires n <= |prog| == |depths| == |depths'| && forall w :: 0 <= w < n ==> depths'[w] == depths[w]
    ensures WeightAt(prog, depths', n, d) == WeightAt(prog, depths, n, d)
  {
    if n > 0 {
      WeightKept(prog, depths, depths', n - 1, d);
    }
  }

  lemma OtherKept(prog: seq<Instr>, depths: seq<nat>, depths': seq<nat>, n: nat, d: nat)
    requires n < |prog| == |depths| == |depths'| && forall w :: 0 <= w < n ==> depths'[w] == depths[w]
    ensures OtherAt(prog, depths', n, d) == OtherAt(prog, depths, n, d)
  {
    forall w: nat | w < n ensures InRound(prog, depths', w, d) == InRound(prog, depths, w, d) {
    }
  }

  lemma BarredKept(prog: seq<Instr>, depths: seq<nat>, depths': seq<nat>, n: nat, d: nat, maxParallel: nat, kind: nat)
    requires n <= |prog| == |depths| == |depths'| && forall w :: 0 <= w < n ==> depths'[w] == depths[w]
    ensures Barred(prog, depths', n, d, maxParallel, kind) == Barred(prog, depths, n, d, maxParallel, kind)
  {
    WeightKept(prog, depths, depths', n, d);
    forall u: nat ensures MetOther(prog, depths', n, u, d, kind) == MetOther(prog, depths, n, u, d, kind) {
      if u < n {
        OtherKept(prog, depths, depths', u, d);
      }
    }
  }

  /** A round barred to a kind stays barred. */
  lemma BarredGrows(prog: seq<Instr>, depths: seq<nat>, n: nat, d: nat, maxParallel: nat, kind: nat)
    requires n < |prog| == |depths| && Barred(prog, depths, n, d, maxParallel, kind)
    ensures Barred(prog, depths, n + 1, d, maxParallel, kind)
  {
    if u: nat :| MetOther(prog, depths, n, u, d, kind) {
      assert MetOther(prog, depths, n + 1, u, d, kind);
    }
  }

  /** A round that n passes by is barred to its kind from then on. */
  lemma PassedIsBarred(prog: seq<Instr>, depths: seq<nat>, n: nat, d: nat, maxParallel: nat)
    requires n < |prog| == |depths| && prog[n].open && Passed(prog, depths, n, d, maxParallel)
    ensures Barred(prog, depths, n + 1, d, maxParallel, prog[n].kind)
  {
    if OtherAt(prog, depths, n, d) {
      assert MetOther(prog, depths, n + 1, n, d, prog[n].kind);
    } else {
      assert FullAt(prog, depths, n, d, maxParallel) ==> FullAt(prog, depths, n + 1, d, maxParallel);
      if Barred(prog, depths, n, d, maxParallel, prog[n].kind) {
        BarredGrows(prog, depths, n, d, maxParallel, prog[n].kind);
      }
    }
  }

  lemma PassedKept(prog: seq<Instr>, depths: seq<nat>, depths': seq<nat>, n: nat, d: nat, maxParallel: nat)
    requires n < |prog| == |depths| == |depths'| && forall w :: 0 <= w < n ==> depths'[w] == depths[w]
    ensures BlockedAt(prog, depths', n, d, maxParallel) == BlockedAt(prog, depths, n, d, maxParallel)
    ensures Passed(prog, depths', n, d, maxParallel) == Passed(prog, depths, n, d, maxParallel)
  {
    WeightKept(prog, depths, depths', n, d);
    OtherKept(prog, depths, depths', n, d);
    BarredKept(prog, depths, depths', n, d, maxParallel, prog[n].kind);
  }

  /** Shortcuts stay right when the depth of n changes. */
  lemma LeadsOnKept(prog: seq<Instr>, depths: seq<nat>, depths': seq<nat>, n: nat, maxParallel: nat, kind: nat, d: nat,
                    e: nat)
    requires n <= |prog| == |depths| == |depths'| && forall w :: 0 <= w < n ==> depths'[w] == depths[w]
    requires LeadsOn(prog, depths, n, maxParallel, kind, d, e)
    ensures LeadsOn(prog, depths', n, maxParallel, kind, d, e)
    ensures n < |prog| ==> LeadsOn(prog, depths', n + 1, maxParallel, kind, d, e)
  {
    hide Barred;
    forall r: nat | d <= r < e ensures Barred(prog, depths', n, r, maxParallel, kind) {
      BarredKept(prog, depths, depths', n, r, maxParallel, kind);
    }
    if n < |prog| {
      var m := n + 1;
      forall r: nat | d <= r < e ensures Barred(prog, depths', m, r, maxParallel, kind) {
        BarredGrows(prog, depths', n, r, maxParallel, kind);
      }
    }
  }

  lemma InUseKept(prog: seq<Instr>, depths: seq<nat>, depths': seq<nat>, n: nat, d: nat)
    requires n <= |prog| == |depths| == |depths'| && forall w :: 0 <= w < n ==> depths'[w] == depths[w]
    requires InUse(prog, depths, n, d)
    ensures InUse(prog, depths', n, d) && (n < |prog| ==> InUse(prog, depths', n + 1, d))
  {
    var w: nat :| w < n && InRound(prog, depths, w, d);
    assert InRound(prog, depths', w, d);
  }

  /** The tables do not depend on later depths, and an instruction that is not merged leaves them as they are. */
  lemma TableKept(prog: seq<Instr>, n: nat, depths: seq<nat>, depths': seq<nat>, maxParallel: nat,
                  roundType: map<nat, nat>, parallelOpen: map<nat, nat>, nextAvailable: map<(nat, nat), nat>, top: nat)
    requires RoundTable(prog, n, depths, maxParallel, roundType, parallelOpen, nextAvailable, top) && n < |prog|
    requires |depths'| == |depths| && forall w :: 0 <= w < n ==> depths'[w] == depths[w]
    ensures RoundTable(prog, n, depths', maxParallel, roundType, parallelOpen, nextAvailable, top)
    ensures !prog[n].open ==> RoundTable(prog, n + 1, depths', maxParallel, roundType, parallelOpen, nextAvailable, top)
  {
    hide LeadsOn, InUse, WeightAt;
    forall d: nat {:trigger InUse(prog, depths', n, d)} {:trigger InUse(prog, depths', n + 1, d)} | d in roundType
      ensures InUse(prog, depths', n, d) && InUse(prog, depths', n + 1, d)
    {
      assert InUse(prog, depths, n, d);
      InUseKept(prog, depths, depths', n, d);
    }
    forall d: nat {:trigger Taken(parallelOpen, d)} | maxParallel > 0
      ensures Taken(parallelOpen, d) == WeightAt(prog, depths', n, d)
      ensures !prog[n].open ==> Taken(parallelOpen, d) == WeightAt(prog, depths', n + 1, d)
    {
      WeightKept(prog, depths, depths', n, d);
      WeightSnoc(prog, depths', n, d);
    }
    forall k: nat, d: nat {:trigger nextAvailable[(k, d)]} | (k, d) in nextAvailable
      ensures LeadsOn(prog, depths', n, maxParallel, k, d, nextAvailable[(k, d)])
      ensures LeadsOn(prog, depths', n + 1, maxParallel, k, d, nextAvailable[(k, d)])
    {
      LeadsOnKept(prog, depths, depths', n, maxParallel, k, d, nextAvailable[(k, d)]);
    }
  }

  lemma WeightSnoc(prog: seq<Instr>, depths: seq<nat>, n: nat, d: nat)
    requires n < |prog| == |depths|
    ensures WeightAt(prog, depths, n + 1, d) ==
            WeightAt(prog, depths, n, d) + if prog[n].open && depths[n] == d then prog[n].weight else 0
  {
  }

  /** Where the search goes on from a blocked round. */
  function Jump(nextAvailable: map<(nat, nat), nat>, kind: nat, d: nat): nat {
    if (kind, d) in nextAvailable then nextAvailable[(kind, d)] else d + 1
  }

  /** The rounds tried for instruction n from round `first` on: all but the last are blocked. */
  ghost predicate Tried(prog: seq<Instr>, depths: seq<nat>, n: nat, maxParallel: nat,
                        nextAvailable: map<(nat, nat), nat>, first: nat, path: seq<nat>)
    requires n < |prog| == |depths|
  {
    && path != [] && path[0] == first
    && forall i {:trigger path[i]} :: 0 <= i < |path| - 1 ==>
         && BlockedAt(prog, depths, n, path[i], maxParallel)
         && path[i + 1] == Jump(nextAvailable, prog[n].kind, path[i])
  }

  /** The last one is not. */
  ghost predicate Search(prog: seq<Instr>, depths: seq<nat>, n: nat, maxParallel: nat,
                         nextAvailable: map<(nat, nat), nat>, first: nat, path: seq<nat>)
    requires n < |prog| == |depths|
  {
    && Tried(prog, depths, n, maxParallel, nextAvailable, first, path)
    && !BlockedAt(prog, depths, n, path[|path| - 1], maxParallel)
  }

  ghost function Elements(path: seq<nat>): set<nat> {
    set d | d in path
  }

  /** The search so far has come to round d and leaves the rounds `skipped` behind. */
  ghost predicate Trying(prog: seq<Instr>, depths: seq<nat>, n: nat, maxParallel: nat,
                         nextAvailable: map<(nat, nat), nat>, path: seq<nat>, d: nat, skipped: set<nat>)
    requires n < |prog| == |depths|
  {
    && Tried(prog, depths, n, maxParallel, nextAvailable, depths[n] + 1, path) && path[|path| - 1] == d > depths[n]
    && skipped == Elements(path[..|path| - 1]) && (forall e :: e in skipped ==> depths[n] < e < d)
    && forall e: nat :: depths[n] < e < d ==> Passed(prog, depths, n, e, maxParallel)
  }

  lemma TryFirst(prog: seq<Instr>, depths: seq<nat>, n: nat, maxParallel: nat, nextAvailable: map<(nat, nat), nat>)
    requires n < |prog| == |depths|
    ensures Trying(prog, depths, n, maxParallel, nextAvailable, [depths[n] + 1], depths[n] + 1, {})
  {
    var path := [depths[n] + 1];
    assert Elements(path[..|path| - 1]) == {};
  }

  lemma TryNext(prog: seq<Instr>, depths: seq<nat>, n: nat, maxParallel: nat, nextAvailable: map<(nat, nat), nat>,
                path: seq<nat>, d: nat, skipped: set<nat>)
    requires n < |prog| == |depths| && Trying(prog, depths, n, maxParallel, nextAvailable, path, d, skipped)
    requires BlockedAt(prog, depths, n, d, maxParallel)
    requires var e := Jump(nextAvailable, prog[n].kind, d);
      d < e && forall r: nat :: d <= r < e ==> Passed(prog, depths, n, r, maxParallel)
    ensures var e := Jump(nextAvailable, prog[n].kind, d);
      Trying(prog, depths, n, maxParallel, nextAvailable, path + [e], e, skipped + {d})
  {
    hide BlockedAt, Jump, Passed;
    var path' := path + [Jump(nextAvailable, prog[n].kind, d)];
    assert path'[..|path|] == path;
    assert path == path[..|path| - 1] + [d];
    assert Elements(path) == Elements(path[..|path| - 1]) + {d};
  }

  lemma TryEnds(prog: seq<Instr>, depths: seq<nat>, n: nat, maxParallel: nat, nextAvailable: map<(nat, nat), nat>,
                path: seq<nat>, d: nat, skipped: set<nat>)
    requires n < |prog| == |depths| && Trying(prog, depths, n, maxParallel, nextAvailable, path, d, skipped)
    requires !BlockedAt(prog, depths, n, d, maxParallel)
    ensures Search(prog, depths, n, maxParallel, nextAvailable, depths[n] + 1, path)
    ensures path[|path| - 1] == d > depths[n] && skipped == Elements(path[..|path| - 1])
    ensures forall e :: e in skipped ==> depths[n] < e < d
    ensures forall e: nat :: depths[n] < e < d ==> Passed(prog, depths, n, e, maxParallel)
  {
  }

  /** The shortcuts after the rounds `skipped` were found to lead to `depth`. */
  ghost predicate Remembered(before: map<(nat, nat), nat>, after: map<(nat, nat), nat>, kind: nat, skipped: set<nat>,
                             depth: nat) {
    forall k: nat, d: nat {:trigger after[(k, d)]} {:trigger (k, d) in after} ::
      if k == kind && d in skipped then (k, d) in after && after[(k, d)] == depth
      else ((k, d) in after <==> (k, d) in before) && ((k, d) in before ==> after[(k, d)] == before[(k, d)])
  }

  /** A merged instruction enters its round, and the shortcuts lead there past the rounds it skipped. */
  lemma TablePlaced(prog: seq<Instr>, n: nat, depths: seq<nat>, depth: nat, maxParallel: nat, roundType: map<nat, nat>,
                    parallelOpen: map<nat, nat>, nextAvailable: map<(nat, nat), nat>, top: nat, skipped: set<nat>,
                    parallelOpen': map<nat, nat>, nextAvailable': map<(nat, nat), nat>)
    requires RoundTable(prog, n, depths, maxParallel, roundType, parallelOpen, nextAvailable, top)
    requires n < |prog| && prog[n].open && !BlockedAt(prog, depths, n, depth, maxParallel)
    requires forall d :: d in skipped ==> depths[n] < d < depth
    requires forall d: nat :: depths[n] < d < depth ==> Passed(prog, depths, n, d, maxParallel)
    requires parallelOpen' == if maxParallel > 0 then parallelOpen[depth := Taken(parallelOpen, depth) + prog[n].weight]
                              else parallelOpen
    requires Remembered(nextAvailable, nextAvailable', prog[n].kind, skipped, depth)
    ensures RoundTable(prog, n + 1, depths[n := depth], maxParallel, roundType[depth := prog[n].mergeId], parallelOpen',
                       nextAvailable', if depth > top then depth else top)
  {
    hide LeadsOn, InUse, WeightAt, BlockedAt, Passed;
    var depths', roundType' := depths[n := depth], roundType[depth := prog[n].mergeId];
    TypesPlaced(prog, n, depths, depth, maxParallel, roundType, parallelOpen, nextAvailable, top);
    forall d: nat {:trigger InUse(prog, depths', n + 1, d)} | d in roundType' ensures InUse(prog, depths', n + 1, d) {
      if d == depth {
        NowInUse(prog, depths', n);
      } else {
        assert InUse(prog, depths, n, d);
        InUseKept(prog, depths, depths', n, d);
      }
    }
    forall d: nat {:trigger Taken(parallelOpen', d)} | maxParallel > 0
      ensures Taken(parallelOpen', d) == WeightAt(prog, depths', n + 1, d)
    {
      WeightKept(prog, depths, depths', n, d);
      WeightSnoc(prog, depths', n, d);
      assert Taken(parallelOpen, d) == WeightAt(prog, depths, n, d);
    }
    forall k: nat, d: nat {:trigger nextAvailable'[(k, d)]} | (k, d) in nextAvailable'
      ensures LeadsOn(prog, depths', n + 1, maxParallel, k, d, nextAvailable'[(k, d)])
    {
      if k == prog[n].kind && d in skipped {
        SkippedLeadsOn(prog, n, depths, depth, maxParallel, d);
      } else {
        assert (k, d) in nextAvailable && nextAvailable'[(k, d)] == nextAvailable[(k, d)];
        LeadsOnKept(prog, depths, depths', n, maxParallel, k, d, nextAvailable[(k, d)]);
      }
    }
  }

  lemma NowInUse(prog: seq<Instr>, depths: seq<nat>, n: nat)
    requires n < |prog| == |depths| && prog[n].open
    ensures InUse(prog, depths, n + 1, depths[n])
  {
    assert InRound(prog, depths, n, depths[n]);
  }

  lemma TypesPlaced(prog: seq<Instr>, n: nat, depths: seq<nat>, depth: nat, maxParallel: nat, roundType: map<nat, nat>,
                    parallelOpen: map<nat, nat>, nextAvailable: map<(nat, nat), nat>, top: nat)
    requires RoundTable(prog, n, depths, maxParallel, roundType, parallelOpen, nextAvailable, top)
    requires n < |prog| && prog[n].open && !BlockedAt(prog, depths, n, depth, maxParallel)
    ensures OneTypePerDepth(prog, n + 1, depths[n := depth], roundType[depth := prog[n].mergeId])
  {
    TableTells(prog, n, depths, maxParallel, roundType, parallelOpen, nextAvailable, top, depth);
  }

  lemma SkippedLeadsOn(prog: seq<Instr>, n: nat, depths: seq<nat>, depth: nat, maxParallel: nat, d: nat)
    requires n < |prog| == |depths| && prog[n].open && depths[n] < d < depth
    requires forall d: nat :: depths[n] < d < depth ==> Passed(prog, depths, n, d, maxParallel)
    ensures LeadsOn(prog, depths[n := depth], n + 1, maxParallel, prog[n].kind, d, depth)
  {
    hide Passed, Barred;
    var depths', m := depths[n := depth], n + 1;
    forall r: nat | d <= r < depth ensures Barred(prog, depths', m, r, maxParallel, prog[n].kind) {
      PassedKept(prog, depths, depths', n, r, maxParallel);
      PassedIsBarred(prog, depths', n, r, maxParallel);
    }
  }

  /** A jump along a shortcut only passes rounds that may be passed by. */
  lemma JumpPasses(prog: seq<Instr>, n: nat, depths: seq<nat>, maxParallel: nat, roundType: map<nat, nat>,
                   parallelOpen: map<nat, nat>, nextAvailable: map<(nat, nat), nat>, top: nat, d: nat)
    requires RoundTable(prog, n, depths, maxParallel, roundType, parallelOpen, nextAvailable, top) && n < |prog|
    requires BlockedAt(prog, depths, n, d, maxParallel)
    ensures var e := Jump(nextAvailable, prog[n].kind, d);
            d < e && forall r: nat :: d <= r < e ==> Passed(prog, depths, n, r, maxParallel)
  {
    if (prog[n].kind, d) in nextAvailable {
      assert LeadsOn(prog, depths, n, maxParallel, prog[n].kind, d, nextAvailable[(prog[n].kind, d)]);
    }
  }

  /** What was placed stays placed. */
  lemma PlacedKept(prog: seq<Instr>, n: nat, depths: seq<nat>, depths': seq<nat>, maxParallel: nat)
    requires Placed(prog, n, depths, maxParallel) && |depths'| == |depths|
    requires forall w :: 0 <= w < n ==> depths'[w] == depths[w]
    ensures Placed(prog, n, depths', maxParallel)
  {
    forall v: nat {:trigger PlacedAt(prog, depths', v, maxParallel)} | v < n
      ensures PlacedAt(prog, depths', v, maxParallel)
    {
      assert PlacedAt(prog, depths, v, maxParallel);
      PlacedAtKept(prog, depths, depths', v, maxParallel);
    }
  }

  lemma PlacedAtKept(prog: seq<Instr>, depths: seq<nat>, depths': seq<nat>, v: nat, maxParallel: nat)
    requires v < |prog| == |depths| == |depths'| && PlacedAt(prog, depths, v, maxParallel)
    requires forall w :: 0 <= w <= v ==> depths'[w] == depths[w]
    ensures PlacedAt(prog, depths', v, maxParallel)
  {
    hide BlockedAt, Passed;
    PassedKept(prog, depths, depths', v, depths[v], maxParallel);
    forall d: nat ensures Above(prog, depths', v, d) == Above(prog, depths, v, d) {
    }
    forall d: nat {:trigger Above(prog, depths', v, d)} | prog[v].open && Above(prog, depths', v, d) && d < depths'[v]
      ensures Passed(prog, depths', v, d, maxParallel)
    {
      assert Above(prog, depths, v, d);
      PassedKept(prog, depths, depths', v, d, maxParallel);
    }
  }
}
