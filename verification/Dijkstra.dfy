/** Weighted graphs, paths and shortest distances. */
module ShortestPaths {
  import opened Oram
  import opened Counting

  /** g[u] lists the edges out of u: target and weight. */
  type Graph = seq<seq<(nat, nat)>>

  ghost predicate WellFormed(g: Graph) {
    forall u, k :: 0 <= u < |g| && 0 <= k < |g[u]| ==> g[u][k].0 < |g|
  }

  // ----- Paths: the edges taken, by their numbers -----

  ghost predicate IsPath(g: Graph, s: nat, p: seq<nat>)
    decreases p, 0
  {
    s < |g| && (p == [] || (IsPath(g, s, p[..|p| - 1]) && End(g, s, p[..|p| - 1]) < |g| &&
                            p[|p| - 1] < |g[End(g, s, p[..|p| - 1])]|))
  }

  ghost function End(g: Graph, s: nat, p: seq<nat>): nat
    requires IsPath(g, s, p)
    decreases p, 1
  {
    if p == [] then s else g[End(g, s, p[..|p| - 1])][p[|p| - 1]].0
  }

  ghost function Length(g: Graph, s: nat, p: seq<nat>): nat
    requires IsPath(g, s, p)
  {
    if p == [] then 0 else Length(g, s, p[..|p| - 1]) + g[End(g, s, p[..|p| - 1])][p[|p| - 1]].1
  }

  ghost predicate PathOf(g: Graph, s: nat, p: seq<nat>, v: nat, d: int) {
    IsPath(g, s, p) && End(g, s, p) == v && Length(g, s, p) == d
  }

  ghost predicate HasPath(g: Graph, s: nat, v: nat, d: int) {
    exists p :: PathOf(g, s, p, v, d)
  }

  ghost predicate Reachable(g: Graph, s: nat, v: nat) {
    exists p :: IsPath(g, s, p) && End(g, s, p) == v
  }

  /** d is the length of a shortest path from s to v. */
  ghost predicate IsDistance(g: Graph, s: nat, v: nat, d: int) {
    HasPath(g, s, v, d) && forall p :: IsPath(g, s, p) && End(g, s, p) == v ==> d <= Length(g, s, p)
  }

  lemma ExtendPath(g: Graph, s: nat, u: nat, d: int, k: nat)
    requires HasPath(g, s, u, d) && u < |g| && k < |g[u]|
    ensures HasPath(g, s, g[u][k].0, d + g[u][k].1)
  {
    var p :| PathOf(g, s, p, u, d);
    var q := p + [k];
    assert q[..|q| - 1] == p;
    assert PathOf(g, s, q, g[u][k].0, d + g[u][k].1);
  }

  lemma PathReaches(g: Graph, s: nat, v: nat, d: int)
    requires HasPath(g, s, v, d)
    ensures Reachable(g, s, v)
  {
    var p :| PathOf(g, s, p, v, d);
    assert IsPath(g, s, p) && End(g, s, p) == v;
  }

  // ----- Certificates -----

  type Dist = seq<Cell<(int, int)>>

  /** Edge k of u does not lead to anything farther than through u. */
  ghost predicate Relaxed(g: Graph, dist: Dist, u: nat, k: int)
    requires |dist| == |g| && WellFormed(g) && u < |g| && 0 <= k < |g[u]|
  {
    var (v, w) := g[u][k];
    dist[u].Full? && dist[v].Full? && dist[v].value.0 <= dist[u].value.0 + w
  }

  ghost predicate AllRelaxed(g: Graph, dist: Dist, u: nat, m: nat)
    requires |dist| == |g| && WellFormed(g) && u < |g| && m <= |g[u]|
  {
    forall k {:trigger Relaxed(g, dist, u, k)} :: 0 <= k < m ==> Relaxed(g, dist, u, k)
  }

  /** A reached vertex has a path of the recorded length, ending with the recorded predecessor. */
  ghost predicate Certified(g: Graph, s: nat, dist: Dist, v: nat)
    requires |dist| == |g| && WellFormed(g) && v < |g|
  {
    dist[v].Full? ==>
      && HasPath(g, s, v, dist[v].value.0)
      && (v == s || FromPrevious(g, dist, v))
  }

  ghost predicate FromPrevious(g: Graph, dist: Dist, v: nat)
    requires |dist| == |g| && v < |g| && dist[v].Full?
  {
    var u := dist[v].value.1;
    && 0 <= u < |g| && dist[u].Full?
    && exists k :: 0 <= k < |g[u]| && g[u][k].0 == v && dist[v].value.0 == dist[u].value.0 + g[u][k].1
  }

  /** Nothing is left to do. */
  ghost predicate Final(g: Graph, s: nat, dist: Dist) {
    && WellFormed(g) && |dist| == |g| && s < |g| && dist[s].Full? && dist[s].value.0 == 0
    && (forall v: nat {:trigger Certified(g, s, dist, v)} :: v < |g| ==> Certified(g, s, dist, v))
    && (forall u: nat {:trigger AllRelaxed(g, dist, u, |g[u]|)} :: u < |g| && dist[u].Full? ==>
        AllRelaxed(g, dist, u, |g[u]|))
  }

  lemma {:induction false} FinalBound(g: Graph, s: nat, dist: Dist, p: seq<nat>)
    requires Final(g, s, dist) && IsPath(g, s, p)
    ensures End(g, s, p) < |g| && dist[End(g, s, p)].Full? && dist[End(g, s, p)].value.0 <= Length(g, s, p)
    decreases |p|
  {
    if p != [] {
      var q, k := p[..|p| - 1], p[|p| - 1];
      FinalBound(g, s, dist, q);
      var u := End(g, s, q);
      assert AllRelaxed(g, dist, u, |g[u]|);
      assert Relaxed(g, dist, u, k);
    }
  }

  /** The result: exact distances and predecessors for the reachable vertices, nothing for the others. */
  ghost predicate Exact(g: Graph, s: nat, dist: Dist) {
    && WellFormed(g) && |dist| == |g|
    && forall v: nat {:trigger Reachable(g, s, v)} :: v < |g| ==>
      if Reachable(g, s, v) then
        dist[v].Full? && IsDistance(g, s, v, dist[v].value.0) && (v == s || FromPrevious(g, dist, v))
      else dist[v].Empty?
  }

  lemma FinalIsExact(g: Graph, s: nat, dist: Dist)
    requires Final(g, s, dist)
    ensures Exact(g, s, dist)
  {
    forall v: nat {:trigger Reachable(g, s, v)} | v < |g|
      ensures if Reachable(g, s, v) then
                dist[v].Full? && IsDistance(g, s, v, dist[v].value.0) && (v == s || FromPrevious(g, dist, v))
              else dist[v].Empty?
    {
      assert Certified(g, s, dist, v);
      if dist[v].Full? {
        PathReaches(g, s, v, dist[v].value.0);
      }
      if Reachable(g, s, v) {
        var p :| IsPath(g, s, p) && End(g, s, p) == v;
        FinalBound(g, s, dist, p);
        forall q | IsPath(g, s, q) && End(g, s, q) == v ensures dist[v].value.0 <= Length(g, s, q) {
          FinalBound(g, s, dist, q);
        }
      }
    }
  }

  // ----- The state between two steps -----

  /** The vertices popped: those done and, if any, the one whose edges are being processed. */
  ghost function Popped(done: set<nat>, active: bool, u: nat): set<nat> {
    if active then done + {u} else done
  }

  /** v is queued just when it is reached and not popped, with its distance. */
  ghost predicate QueuedRight(dist: Dist, q: map<int, int>, popped: set<nat>, v: nat)
    requires v < |dist|
  {
    && (v in q <==> dist[v].Full? && v !in popped)
    && (v in q ==> q[v] == dist[v].value.0)
  }

  ghost predicate QueueOf(g: Graph, dist: Dist, q: map<int, int>, popped: set<nat>)
    requires |dist| == |g|
  {
    && (forall v :: v in q ==> 0 <= v < |g|)
    && (forall v: nat {:trigger QueuedRight(dist, q, popped, v)} :: v < |g| ==> QueuedRight(dist, q, popped, v))
  }

  ghost predicate NoFarther(dist: Dist, p: nat, v: int) {
    p < |dist| && 0 <= v < |dist| && dist[p].Full? && dist[v].Full? && dist[p].value.0 <= dist[v].value.0
  }

  /** Popped vertices are no farther than queued ones. */
  ghost predicate InOrder(g: Graph, dist: Dist, q: map<int, int>, popped: set<nat>)
    requires |dist| == |g|
  {
    && (forall p :: p in popped ==> p < |g| && dist[p].Full?)
    && (forall p: nat, v: int {:trigger NoFarther(dist, p, v)} :: p in popped && v in q ==> NoFarther(dist, p, v))
  }

  ghost predicate PreviousIn(s: nat, dist: Dist, popped: set<nat>, v: nat)
    requires v < |dist|
  {
    dist[v].Full? && v != s ==> dist[v].value.1 in popped
  }

  ghost predicate PreviousPopped(s: nat, dist: Dist, popped: set<nat>) {
    forall v: nat {:trigger PreviousIn(s, dist, popped, v)} :: v < |dist| ==> PreviousIn(s, dist, popped, v)
  }

  ghost predicate Progress(g: Graph, s: nat, dist: Dist, q: map<int, int>, done: set<nat>, active: bool, u: nat,
                           k: nat) {
    && WellFormed(g) && |dist| == |g| && s < |g| && dist[s].Full? && dist[s].value.0 == 0
    && (forall v: nat {:trigger Certified(g, s, dist, v)} :: v < |g| ==> Certified(g, s, dist, v))
    && PreviousPopped(s, dist, Popped(done, active, u))
    && QueueOf(g, dist, q, Popped(done, active, u)) && InOrder(g, dist, q, Popped(done, active, u))
    && (forall p {:trigger AllRelaxed(g, dist, p, |g[p]|)} :: p in done ==> AllRelaxed(g, dist, p, |g[p]|))
    && (active ==> u < |g| && u !in done && k <= |g[u]| && AllRelaxed(g, dist, u, k)
                   && forall p: nat {:trigger NoFarther(dist, p, u)} :: p in done ==> NoFarther(dist, p, u))
  }

  lemma PopStep(g: Graph, s: nat, dist: Dist, q: map<int, int>, done: set<nat>, u0: nat, k0: nat, u: nat)
    requires Progress(g, s, dist, q, done, false, u0, k0) && u in q && forall v :: v in q ==> q[u] <= q[v]
    ensures Progress(g, s, dist, q - {u}, done, true, u, 0)
  {
    assert QueuedRight(dist, q, done, u);
    forall v: nat {:trigger QueuedRight(dist, q - {u}, done + {u}, v)} | v < |g|
      ensures QueuedRight(dist, q - {u}, done + {u}, v)
    {
      assert QueuedRight(dist, q, done, v);
    }
    forall v: nat {:trigger PreviousIn(s, dist, done + {u}, v)} | v < |dist|
      ensures PreviousIn(s, dist, done + {u}, v)
    {
      assert PreviousIn(s, dist, done, v);
    }
    forall p: nat {:trigger NoFarther(dist, p, u)} | p in done ensures NoFarther(dist, p, u) {
    }
    forall p: nat, v: int {:trigger NoFarther(dist, p, v)} | p in done + {u} && v in q - {u}
      ensures NoFarther(dist, p, v)
    {
      assert QueuedRight(dist, q, done, v);
      assert p in done ==> NoFarther(dist, p, v);
    }
  }

  /** What relaxing an edge to v stores. */
  ghost function RelaxedDist(dist: Dist, v: nat, alt: int, u: int): Dist {
    if v < |dist| && (dist[v].Empty? || alt < dist[v].value.0) then dist[v := Full((alt, u))] else dist
  }

  ghost function RelaxedQueue(dist: Dist, q: map<int, int>, v: nat, alt: int): map<int, int>
    requires v < |dist|
  {
    if dist[v].Empty? || alt < dist[v].value.0 then q[v := alt] else q
  }

  /** Relaxing edge k of the active vertex. Popped vertices keep their distances. */
  lemma RelaxStep(g: Graph, s: nat, dist: Dist, q: map<int, int>, done: set<nat>, u: nat, k: nat)
    requires Progress(g, s, dist, q, done, true, u, k) && k < |g[u]|
    ensures var (v, w) := g[u][k];
            var alt := dist[u].value.0 + w;
            && v < |dist| && dist[u].Full?
            && Progress(g, s, RelaxedDist(dist, v, alt, u), RelaxedQueue(dist, q, v, alt), done, true, u, k + 1)
            && (RelaxedDist(dist, v, alt, u) != dist ==> v !in Popped(done, true, u) && (v in q ==> alt <= q[v]))
  {
    var (v, w) := g[u][k];
    var alt := dist[u].value.0 + w;
    var popped := Popped(done, true, u);
    assert u in popped;
    assert QueuedRight(dist, q, popped, v);
    if dist[v].Full? && alt >= dist[v].value.0 {
      forall l {:trigger Relaxed(g, dist, u, l)} | 0 <= l < k + 1 ensures Relaxed(g, dist, u, l) {
      }
    } else {
      FarIsNotPopped(g, s, dist, q, done, u, k, v, alt);
      ShorterKeeps(g, s, dist, done, u, k, v, alt);
      ShorterQueue(g, s, dist, q, done, u, v, alt);
    }
  }

  /** Popped vertices are at least as near as the active one, so an edge cannot shorten the way to them. */
  lemma FarIsNotPopped(g: Graph, s: nat, dist: Dist, q: map<int, int>, done: set<nat>, u: nat, k: nat, v: nat, alt: int)
    requires Progress(g, s, dist, q, done, true, u, k) && k < |g[u]| && v < |g|
    requires dist[u].Full? && alt >= dist[u].value.0 && (dist[v].Empty? || alt < dist[v].value.0)
    ensures v !in Popped(done, true, u) && v != s
  {
    assert v in done ==> NoFarther(dist, v, u);
    assert Certified(g, s, dist, u);
    LengthsArePositive(g, s, u, dist[u].value.0);
  }

  lemma LengthsArePositive(g: Graph, s: nat, v: nat, d: int)
    requires HasPath(g, s, v, d)
    ensures d >= 0
  {
    var p :| PathOf(g, s, p, v, d);
  }

  lemma ShorterQueue(g: Graph, s: nat, dist: Dist, q: map<int, int>, done: set<nat>, u: nat, v: nat, alt: int)
    requires |dist| == |g| && u < |g| && v < |g| && dist[u].Full? && v !in Popped(done, true, u)
    requires QueueOf(g, dist, q, Popped(done, true, u)) && InOrder(g, dist, q, Popped(done, true, u))
    requires forall p: nat {:trigger NoFarther(dist, p, u)} :: p in done ==> NoFarther(dist, p, u)
    requires alt >= dist[u].value.0
    ensures var dist', q' := dist[v := Full((alt, u))], q[v := alt];
            && QueueOf(g, dist', q', Popped(done, true, u)) && InOrder(g, dist', q', Popped(done, true, u))
            && forall p: nat {:trigger NoFarther(dist', p, u)} :: p in done ==> NoFarther(dist', p, u)
  {
    var dist', q', popped := dist[v := Full((alt, u))], q[v := alt], Popped(done, true, u);
    forall x: nat {:trigger QueuedRight(dist', q', popped, x)} | x < |g| ensures QueuedRight(dist', q', popped, x) {
      assert QueuedRight(dist, q, popped, x);
    }
    forall p: nat {:trigger NoFarther(dist', p, u)} | p in done ensures NoFarther(dist', p, u) {
      assert NoFarther(dist, p, u);
    }
    forall p: nat, x: int {:trigger NoFarther(dist', p, x)} | p in popped && x in q' ensures NoFarther(dist', p, x) {
      if x == v {
        assert p in done ==> NoFarther(dist, p, u);
      } else {
        assert NoFarther(dist, p, x);
      }
    }
  }

  lemma ShorterKeeps(g: Graph, s: nat, dist: Dist, done: set<nat>, u: nat, k: nat, v: nat, alt: int)
    requires WellFormed(g) && |dist| == |g| && s < |g| && dist[s].Full? && u < |g| && dist[u].Full? && k < |g[u]|
    requires v == g[u][k].0 && alt == dist[u].value.0 + g[u][k].1 && u != v
    requires dist[v].Empty? || alt < dist[v].value.0
    requires forall x: nat {:trigger Certified(g, s, dist, x)} :: x < |g| ==> Certified(g, s, dist, x)
    requires u !in done && v !in done && AllRelaxed(g, dist, u, k) && PreviousPopped(s, dist, done + {u})
    requires forall p :: p in done ==> p < |g| && dist[p].Full?
    requires forall p {:trigger AllRelaxed(g, dist, p, |g[p]|)} :: p in done ==> AllRelaxed(g, dist, p, |g[p]|)
    requires v != s
    ensures var dist' := dist[v := Full((alt, u))];
            && (forall x: nat {:trigger Certified(g, s, dist', x)} :: x < |g| ==> Certified(g, s, dist', x))
            && (forall p {:trigger AllRelaxed(g, dist', p, |g[p]|)} :: p in done ==> AllRelaxed(g, dist', p, |g[p]|))
            && AllRelaxed(g, dist', u, k + 1) && PreviousPopped(s, dist', done + {u})
  {
    var dist' := dist[v := Full((alt, u))];
    assert Certified(g, s, dist, u);
    ExtendPath(g, s, u, dist[u].value.0, k);
    forall x: nat {:trigger Certified(g, s, dist', x)} | x < |g| ensures Certified(g, s, dist', x) {
      if x != v {
        assert Certified(g, s, dist, x) && PreviousIn(s, dist, done + {u}, x);
      }
    }
    forall p {:trigger AllRelaxed(g, dist', p, |g[p]|)} | p in done ensures AllRelaxed(g, dist', p, |g[p]|) {
      assert AllRelaxed(g, dist, p, |g[p]|);
      LowerKeepsRelaxed(g, dist, p, |g[p]|, v, alt, u);
    }
    forall x: nat {:trigger PreviousIn(s, dist', done + {u}, x)} | x < |g| ensures PreviousIn(s, dist', done + {u}, x) {
      assert PreviousIn(s, dist, done + {u}, x);
    }
    LowerKeepsRelaxed(g, dist, u, k, v, alt, u);
    forall l {:trigger Relaxed(g, dist', u, l)} | 0 <= l < k + 1 ensures Relaxed(g, dist', u, l) {
    }
  }

  lemma LowerKeepsRelaxed(g: Graph, dist: Dist, p: nat, m: nat, v: nat, alt: int, u: int)
    requires |dist| == |g| && WellFormed(g) && p < |g| && m <= |g[p]| && AllRelaxed(g, dist, p, m)
    requires v < |g| && p != v && (dist[v].Empty? || alt < dist[v].value.0)
    ensures AllRelaxed(g, dist[v := Full((alt, u))], p, m)
  {
    var dist' := dist[v := Full((alt, u))];
    forall l {:trigger Relaxed(g, dist', p, l)} | 0 <= l < m ensures Relaxed(g, dist', p, l) {
      assert Relaxed(g, dist, p, l);
    }
  }

  lemma FinishStep(g: Graph, s: nat, dist: Dist, q: map<int, int>, done: set<nat>, u: nat)
    requires u < |g| && Progress(g, s, dist, q, done, true, u, |g[u]|)
    ensures Progress(g, s, dist, q, done + {u}, false, u, 0)
  {
    assert Popped(done, true, u) == Popped(done + {u}, false, u);
  }

  /** With an empty queue and no vertex in progress all reached vertices are done. */
  lemma EmptyQueueIsFinal(g: Graph, s: nat, dist: Dist, q: map<int, int>, done: set<nat>, u: nat, k: nat)
    requires Progress(g, s, dist, q, done, false, u, k) && q == map[]
    ensures Final(g, s, dist)
  {
    forall x: nat {:trigger AllRelaxed(g, dist, x, |g[x]|)} | x < |g| && dist[x].Full?
      ensures AllRelaxed(g, dist, x, |g[x]|)
    {
      assert QueuedRight(dist, q, done, x);
    }
  }

  /** The start: the source at distance 0, alone in the queue. */
  lemma ProgressStarts(g: Graph, s: nat, dist: Dist)
    requires WellFormed(g) && s < |g| == |dist|
    requires forall v :: 0 <= v < |dist| ==> dist[v] == if v == s then Full((0, 0)) else Empty
    ensures Progress(g, s, dist, map[s := 0], {}, false, 0, 0)
  {
    assert PathOf(g, s, [], s, 0);
  }

  // ----- Counting iterations -----

  /** The number of edges out of the first m vertices that are in `done`. */
  ghost function Degrees(g: Graph, done: set<nat>, m: nat): nat
    requires m <= |g|
  {
    if m == 0 then 0 else Degrees(g, done, m - 1) + if m - 1 in done then |g[m - 1]| else 0
  }

  ghost function EdgeCount(g: Graph, m: nat): nat
    requires m <= |g|
  {
    if m == 0 then 0 else EdgeCount(g, m - 1) + |g[m - 1]|
  }

  lemma {:induction false} DegreesGrow(g: Graph, done: set<nat>, u: nat, m: nat)
    requires m <= |g| && u < |g| && u !in done
    ensures Degrees(g, done + {u}, m) == Degrees(g, done, m) + if u < m then |g[u]| else 0
  {
    if m > 0 {
      DegreesGrow(g, done, u, m - 1);
    }
  }

  /** The vertices that have a path from s. */
  ghost function Reached(g: Graph, s: nat): set<nat> {
    set v: nat | v < |g| && Reachable(g, s, v)
  }

  /** The number of edges out of reachable vertices: how many steps the search takes. */
  ghost function ReachedEdges(g: Graph, s: nat): nat {
    Degrees(g, Reached(g, s), |g|)
  }

  lemma {:induction false} DegreesMonotone(g: Graph, a: set<nat>, b: set<nat>, m: nat)
    requires m <= |g| && a <= b && forall u :: 0 <= u < |g| ==> g[u] != []
    ensures Degrees(g, a, m) <= Degrees(g, b, m)
    ensures Degrees(g, a, m) == Degrees(g, b, m) ==> forall u: nat :: u < m && u in b ==> u in a
  {
    if m > 0 {
      DegreesMonotone(g, a, b, m - 1);
    }
  }

  lemma {:induction false} DegreesBound(g: Graph, done: set<nat>, m: nat)
    requires m <= |g|
    ensures Degrees(g, done, m) <= EdgeCount(g, m)
  {
    if m > 0 {
      DegreesBound(g, done, m - 1);
    }
  }

  /** One iteration per entry of the edge list, the default, is always enough. */
  lemma EdgesSuffice(g: Graph, s: nat)
    ensures ReachedEdges(g, s) <= EdgeCount(g, |g|)
  {
    DegreesBound(g, Reached(g, s), |g|);
  }

  lemma PoppedAreReached(g: Graph, s: nat, dist: Dist, q: map<int, int>, done: set<nat>, active: bool, u: nat, k: nat)
    requires Progress(g, s, dist, q, done, active, u, k)
    ensures Popped(done, active, u) <= Reached(g, s)
  {
    forall p | p in Popped(done, active, u) ensures p in Reached(g, s) {
      assert p < |g| && dist[p].Full?;
      assert Certified(g, s, dist, p);
      PathReaches(g, s, p, dist[p].value.0);
    }
  }

  /** After as many steps as there are edges out of reachable vertices, exactly these vertices are done. */
  lemma AllDone(g: Graph, s: nat, dist: Dist, q: map<int, int>, done: set<nat>, active: bool, u: nat, k: nat,
                steps: nat)
    requires Progress(g, s, dist, q, done, active, u, k) && (forall x :: 0 <= x < |g| ==> g[x] != [])
    requires active ==> k < |g[u]|
    requires steps == Degrees(g, done, |g|) + (if active then k else 0) && steps >= ReachedEdges(g, s)
    ensures !active && q == map[] && steps == ReachedEdges(g, s)
  {
    PoppedAreReached(g, s, dist, q, done, active, u, k);
    if active {
      DegreesGrow(g, done, u, |g|);
      DegreesMonotone(g, done + {u}, Reached(g, s), |g|);
      assert false;
    } else {
      DegreesMonotone(g, done, Reached(g, s), |g|);
      forall v ensures v !in q {
        if v in q {
          assert QueuedRight(dist, q, done, v);
          assert Certified(g, s, dist, v);
          PathReaches(g, s, v, dist[v].value.0);
        }
      }
    }
  }

  /** With an empty queue and no vertex in progress the done vertices are the reachable ones. */
  lemma DoneIsReached(g: Graph, s: nat, dist: Dist, q: map<int, int>, done: set<nat>, u: nat, k: nat)
    requires Progress(g, s, dist, q, done, false, u, k) && q == map[]
    ensures done == Reached(g, s)
  {
    PoppedAreReached(g, s, dist, q, done, false, u, k);
    EmptyQueueIsFinal(g, s, dist, q, done, u, k);
    FinalIsExact(g, s, dist);
    forall v | v in Reached(g, s) ensures v in done {
      assert QueuedRight(dist, q, done, v);
    }
  }

  // ----- Steps after the search -----

  /** Edge k of vertex 0 ends at a vertex that has a path no longer than the weight of the edge. */
  ghost predicate Harmless(g: Graph, s: nat, k: int)
    requires g != [] && 0 <= k < |g[0]|
  {
    exists p :: IsPath(g, s, p) && End(g, s, p) == g[0][k].0 && Length(g, s, p) <= g[0][k].1
  }

  /** The exhausted queue returns vertex 0, so every further step takes an edge out of it, at distance 0 if it was not
      reached. Nothing is spoilt in `steps` steps: vertex 0 is reachable, or the edges taken are harmless. */
  ghost predicate Unspoilt(g: Graph, s: nat, steps: nat)
    requires g != []
  {
    || Reachable(g, s, 0)
    || forall k {:trigger Harmless(g, s, k)} :: 0 <= k < |g[0]| && k < steps - ReachedEdges(g, s) ==> Harmless(g, s, k)
  }

  /** The recorded distance of v is shorter than any path to v. */
  ghost predicate TooShort(g: Graph, s: nat, dist: Dist, v: nat)
    requires v < |dist|
  {
    dist[v].Full? && forall p :: IsPath(g, s, p) && End(g, s, p) == v ==> dist[v].value.0 < Length(g, s, p)
  }

  ghost predicate Wrong(g: Graph, s: nat, dist: Dist) {
    |dist| == |g| && exists v: nat :: v < |dist| && TooShort(g, s, dist, v)
  }

  lemma WrongIsNotExact(g: Graph, s: nat, dist: Dist)
    requires Wrong(g, s, dist)
    ensures !Exact(g, s, dist)
  {
    var v: nat :| v < |dist| && TooShort(g, s, dist, v);
    assert !HasPath(g, s, v, dist[v].value.0);
    if Reachable(g, s, v) {
      assert !IsDistance(g, s, v, dist[v].value.0);
    }
  }

  /** Distances only go down, so what is too short stays too short, whatever is relaxed. */
  lemma WrongStays(g: Graph, s: nat, dist: Dist, v: nat, alt: int, u: int)
    requires Wrong(g, s, dist)
    ensures Wrong(g, s, RelaxedDist(dist, v, alt, u))
  {
    var x: nat :| x < |dist| && TooShort(g, s, dist, x);
    assert TooShort(g, s, RelaxedDist(dist, v, alt, u), x);
  }

  /** A step out of vertex 0 after the search. */
  lemma StepFromZero(g: Graph, s: nat, dist: Dist, k: nat)
    requires Final(g, s, dist) && k < |g[0]| && !Reachable(g, s, 0)
    ensures dist[0].Empty?
    ensures var (v, w) := g[0][k];
            if Harmless(g, s, k) then RelaxedDist(dist, v, w, 0) == dist else Wrong(g, s, RelaxedDist(dist, v, w, 0))
  {
    var (v, w) := g[0][k];
    FinalIsExact(g, s, dist);
    if Harmless(g, s, k) {
      var p :| IsPath(g, s, p) && End(g, s, p) == v && Length(g, s, p) <= w;
      FinalBound(g, s, dist, p);
    } else {
      if dist[v].Full? {
        assert Reachable(g, s, v);
        var p :| PathOf(g, s, p, v, dist[v].value.0);
        assert w < dist[v].value.0;
      }
      assert TooShort(g, s, RelaxedDist(dist, v, w, 0), v);
    }
  }
}

/** Dijkstra's algorithm over a flattened edge list with a fixed number of iterations. */
module DijkstraSearch {
  import opened Powers
  import opened Oram
  import opened Counting
  import opened PriorityQueue
  import opened ShortestPaths

  /** An entry of the edge list; `last` marks the final edge of its vertex. */
  datatype EdgeEntry = EdgeEntry(target: nat, weight: nat, last: bool)

  ghost predicate EntryAt(g: Graph, edges: seq<EdgeEntry>, eIndex: seq<nat>, u: nat, k: int)
    requires u < |g| == |eIndex| && 0 <= k < |g[u]|
  {
    eIndex[u] + k < |edges| && edges[eIndex[u] + k] == EdgeEntry(g[u][k].0, g[u][k].1, k == |g[u]| - 1)
  }

  /** The edges of u are stored one after the other from eIndex[u] on, the last one marked; every vertex has one. */
  ghost predicate Layout(g: Graph, edges: seq<EdgeEntry>, eIndex: seq<nat>) {
    && |eIndex| == |g| && (forall u :: 0 <= u < |g| ==> g[u] != [])
    && forall u: nat, k {:trigger EntryAt(g, edges, eIndex, u, k)} :: u < |g| && 0 <= k < |g[u]| ==>
         EntryAt(g, edges, eIndex, u, k)
  }

  /** A read from the edge list; beyond its end there is nothing. */
  function EdgeAt(edges: seq<EdgeEntry>, i: nat): EdgeEntry {
    if i < |edges| then edges[i] else EdgeEntry(0, 0, false)
  }

  // ----- The state of the loop -----

  /** The search goes on; or the queue ran empty with all reached vertices done; or, after that, a step out of the
      unreached vertex 0 has spoilt the result. */
  datatype Phase = Running | Exhausted | Spoilt

  /** The search goes on: `c` is what the queue holds. */
  ghost predicate Ongoing(g: Graph, s: nat, dist: Dist, c: map<int, int>, size: nat, done: set<nat>, active: bool,
                          u: nat, k: nat, steps: nat) {
    && size == |c| && Progress(g, s, dist, c, done, active, u, k)
    && steps == Degrees(g, done, |g|) + if active then k else 0
  }

  /** After the search: the edges of vertex 0 are taken over and over. */
  ghost predicate Idle(g: Graph, s: nat, dist: Dist, active: bool, u: int, k: nat, steps: nat) {
    && Final(g, s, dist) && Unspoilt(g, s, steps) && steps >= ReachedEdges(g, s)
    && var extra := steps - ReachedEdges(g, s);
    && (active ==> u == 0 && k <= extra)
    && (extra < |g[0]| ==> extra == if active then k else 0)
  }

  ghost predicate Searching(g: Graph, s: nat, dist: Dist, q: HeapQ, done: set<nat>, active: bool, u: int, k: nat,
                            phase: Phase, steps: nat)
    reads q
  {
    && q.Sized() && g != [] && |dist| == |g|
    && match phase
       case Running => u >= 0 && q.Valid() && Ongoing(g, s, dist, q.Queue(), q.size, done, active, u, k, steps)
       case Exhausted => q.Drained() && Idle(g, s, dist, active, u, k, steps)
       case Spoilt => Wrong(g, s, dist) && !Unspoilt(g, s, steps)
  }

  lemma QueueFits(g: Graph, dist: Dist, q: map<int, int>, popped: set<nat>, v: nat)
    requires |dist| == |g| && QueueOf(g, dist, q, popped) && InOrder(g, dist, q, popped) && popped != {}
    requires v < |g| && v !in popped && v !in q
    ensures |q| + 1 < |g|
  {
    var p :| p in popped;
    assert QueuedRight(dist, q, popped, p);
    TwoMore(q.Keys, v, p, |g|);
  }

  lemma TwoMore(keys: set<int>, v: int, p: int, n: nat)
    requires v != p && v !in keys && p !in keys && forall x :: x in keys + {v, p} ==> 0 <= x < n
    ensures |keys| + 2 <= n
  {
    assert |keys + {v} + {p}| == |keys| + 2;
    assert keys + {v} + {p} == keys + {v, p};
    forall x | x in keys + {v} + {p} ensures x in Range(n) {
    }
    SubsetCardinality(keys + {v} + {p}, Range(n));
  }

  lemma PopKeepsSearching(g: Graph, s: nat, dist: Dist, c: map<int, int>, size: nat, done: set<nat>, u0: nat, k0: nat,
                          steps: nat, u: int)
    requires Ongoing(g, s, dist, c, size, done, false, u0, k0, steps) && u in c && forall v :: v in c ==> c[u] <= c[v]
    ensures 0 <= u < |g| && size > 0 && Ongoing(g, s, dist, c - {u}, size - 1, done, true, u, 0, steps)
  {
    PopStep(g, s, dist, c, done, u0, k0, u);
    assert c.Keys == (c - {u}).Keys + {u};
  }

  lemma EmptyIsIdle(g: Graph, s: nat, dist: Dist, c: map<int, int>, done: set<nat>, u0: nat, k0: nat, steps: nat)
    requires Ongoing(g, s, dist, c, 0, done, false, u0, k0, steps)
    ensures Idle(g, s, dist, true, 0, 0, steps)
  {
    assert c == map[];
    EmptyQueueIsFinal(g, s, dist, c, done, u0, k0);
    DoneIsReached(g, s, dist, c, done, u0, k0);
  }

  /** The top of the loop: with the last edge of a vertex behind, the next one is popped. */
  method NextVertex(ghost g: Graph, ghost s: nat, ghost dist: Dist, q: HeapQ, lastEdge: bool, u: int,
                    ghost done: set<nat>, ghost k: nat, ghost phase: Phase, ghost steps: nat)
    returns (u': int, ghost k': nat, ghost phase': Phase)
    requires Searching(g, s, dist, q, done, !lastEdge, u, k, phase, steps)
    modifies q
    ensures Searching(g, s, dist, q, done, true, u', k', phase', steps)
    ensures if lastEdge then k' == 0 else u' == u && k' == k
    ensures phase' == Spoilt <==> phase == Spoilt
    ensures phase' != Spoilt && lastEdge ==> 0 <= u' < |g|
  {
    ghost var c, size := q.Queue(), q.size;
    var popped := q.Pop(lastEdge, phase != Spoilt);
    u', k', phase' := u, k, phase;
    if lastEdge {
      if phase == Running {
        if size == 0 {
          EmptyIsIdle(g, s, dist, c, done, u, k, steps);
          phase' := Exhausted;
        } else {
          PopKeepsSearching(g, s, dist, c, size, done, u, k, steps, popped);
        }
      }
      u', k' := popped, 0;
    }
  }

  lemma RelaxKeepsSearching(g: Graph, s: nat, dist: Dist, c: map<int, int>, size: nat, done: set<nat>, u: nat, k: nat,
                            steps: nat)
    requires Ongoing(g, s, dist, c, size, done, true, u, k, steps) && k < |g[u]|
    ensures var (v, w) := g[u][k];
            var alt := dist[u].value.0 + w;
            && v < |g| && dist[u].Full? && alt >= 0
            && Ongoing(g, s, RelaxedDist(dist, v, alt, u), RelaxedQueue(dist, c, v, alt),
                       |RelaxedQueue(dist, c, v, alt)|,
                       done, true, u, k + 1, steps + 1)
            && (dist[v].Empty? || alt < dist[v].value.0 ==>
                  if v in c then alt <= c[v] && |RelaxedQueue(dist, c, v, alt)| == size
                  else size + 1 < |g| && |RelaxedQueue(dist, c, v, alt)| == size + 1)
  {
    var (v, w) := g[u][k];
    var alt := dist[u].value.0 + w;
    RelaxStep(g, s, dist, c, done, u, k);
    assert Certified(g, s, dist, u);
    LengthsArePositive(g, s, u, dist[u].value.0);
    if dist[v].Empty? || alt < dist[v].value.0 {
      if v in c {
        assert c[v := alt].Keys == c.Keys;
      } else {
        assert u in Popped(done, true, u);
        QueueFits(g, dist, c, Popped(done, true, u), v);
        assert c[v := alt].Keys == c.Keys + {v};
      }
    }
  }

  /** When everything is relaxed, no edge shortens anything. */
  lemma FinalStays(g: Graph, s: nat, dist: Dist, u: nat, k: nat)
    requires Final(g, s, dist) && u < |g| && k < |g[u]| && dist[u].Full?
    ensures RelaxedDist(dist, g[u][k].0, dist[u].value.0 + g[u][k].1, u) == dist
  {
    assert AllRelaxed(g, dist, u, |g[u]|);
    assert Relaxed(g, dist, u, k);
  }

  /** One more step out of vertex 0 leaves everything as it is, or spoils the result for good. */
  lemma IdleStep(g: Graph, s: nat, dist: Dist, k: nat, steps: nat)
    requires g != [] && Idle(g, s, dist, true, 0, k, steps) && k < |g[0]|
    ensures var dist' := RelaxedDist(dist, g[0][k].0, Get(dist, 0, (0, 0)).0 + g[0][k].1, 0);
            if Unspoilt(g, s, steps + 1) then dist' == dist && Idle(g, s, dist, true, 0, k + 1, steps + 1)
            else Wrong(g, s, dist')
  {
    if Reachable(g, s, 0) {
      FinalIsExact(g, s, dist);
      FinalStays(g, s, dist, 0, k);
    } else {
      StepFromZero(g, s, dist, k);
      assert Unspoilt(g, s, steps + 1) ==> Harmless(g, s, k);
      if Harmless(g, s, k) {
        forall j {:trigger Harmless(g, s, j)} | 0 <= j < |g[0]| && j < steps + 1 - ReachedEdges(g, s)
          ensures Harmless(g, s, j)
        {
          assert j < steps - ReachedEdges(g, s) || j == k;
        }
      }
    }
  }

  lemma SpoiltStays(g: Graph, s: nat, steps: nat)
    requires g != [] && !Unspoilt(g, s, steps)
    ensures !Unspoilt(g, s, steps + 1)
  {
  }

  /** The rest of the loop body: one edge is relaxed. */
  method RelaxEdge(ghost g: Graph, ghost s: nat, dist: Dist, q: HeapQ, e: EdgeEntry, u: int, ghost done: set<nat>,
                   ghost k: nat, ghost phase: Phase, ghost steps: nat)
    returns (dist': Dist, ghost phase': Phase)
    requires phase != Spoilt ==> 0 <= u < |g| && k < |g[u]| && e.target == g[u][k].0 && e.weight == g[u][k].1
    requires q.maxSize == |g| <= Pow2(q.levels) && WellFormed(g)
    requires Searching(g, s, dist, q, done, true, u, k, phase, steps)
    modifies q
    ensures Searching(g, s, dist', q, done, true, u, k + 1, phase', steps + 1)
    ensures phase' != Spoilt ==> phase' == phase
  {
    hide Progress, Final, Unspoilt, Wrong, ReachedEdges, Degrees, Contents;
    var v, weight := e.target, e.weight;
    ghost var c, size := q.Queue(), q.size;
    phase' := phase;
    match phase {
      case Running => RelaxKeepsSearching(g, s, dist, c, size, done, u, k, steps);
      case Exhausted =>
        IdleStep(g, s, dist, k, steps);
        phase' := if Unspoilt(g, s, steps + 1) then Exhausted else Spoilt;
      case Spoilt => SpoiltStays(g, s, steps);
    }
    var alt := Get(dist, u, (0, 0)).0 + weight;
    var dv, notVisited := Get(dist, v, (0, 0)), IsEmpty(dist, v);
    var isShorter := alt < dv.0 || notVisited;
    dist' := Store(dist, v, (alt, u), isShorter);
    assert dist' == RelaxedDist(dist, v, alt, u);
    if phase == Spoilt { WrongStays(g, s, dist, v, alt, u); }
    q.Update(v, alt, isShorter, phase' != Spoilt);
    assert phase == Running ==>
      q.Queue() == RelaxedQueue(dist, c, v, alt) && q.size == |RelaxedQueue(dist, c, v, alt)|;
  }

  /** One iteration of the loop. */
  method Iterate(ghost g: Graph, ghost s: nat, dist: Dist, q: HeapQ, edges: seq<EdgeEntry>, eIndex: seq<nat>,
                 lastEdge: bool, iEdge: nat, u: int, ghost done: set<nat>, ghost k: nat, ghost phase: Phase,
                 ghost steps: nat)
    returns (dist': Dist, lastEdge': bool, iEdge': nat, u': int, ghost done': set<nat>, ghost k': nat,
             ghost phase': Phase)
    requires q.maxSize == |g| <= Pow2(q.levels) && WellFormed(g) && Layout(g, edges, eIndex)
    requires Searching(g, s, dist, q, done, !lastEdge, u, k, phase, steps)
    requires phase != Spoilt && !lastEdge ==> OnEdge(g, eIndex, u, k, iEdge)
    modifies q
    ensures Searching(g, s, dist', q, done', !lastEdge', u', k', phase', steps + 1)
    ensures phase' != Spoilt && !lastEdge' ==> OnEdge(g, eIndex, u', k', iEdge')
  {
    hide Searching, Reachable;
    ghost var popping;
    u', k', popping := NextVertex(g, s, dist, q, lastEdge, u, done, k, phase, steps);
    iEdge' := if lastEdge then (if 0 <= u' < |eIndex| then eIndex[u'] else 0) else iEdge;
    if phase != Spoilt {
      assert g[u'] != [];
      assert OnEdge(g, eIndex, u', k', iEdge');
      assert EntryAt(g, edges, eIndex, u', k');
    }
    var e := EdgeAt(edges, iEdge');
    lastEdge' := e.last;
    iEdge' := iEdge' + 1;
    dist', phase' := RelaxEdge(g, s, dist, q, e, u', done, k', popping, steps);
    k' := k' + 1;
    done' := done;
    if e.last {
      LastEdge(g, s, dist', q, done, u', k', phase', steps + 1);
      done' := if phase' == Running then done + {u'} else done;
    }
  }

  /** The next entry to read is edge k of vertex u. */
  ghost predicate OnEdge(g: Graph, eIndex: seq<nat>, u: int, k: nat, iEdge: nat) {
    0 <= u < |g| == |eIndex| && k < |g[u]| && iEdge == eIndex[u] + k
  }

  /** After its last edge the vertex is done. */
  lemma LastEdge(g: Graph, s: nat, dist: Dist, q: HeapQ, done: set<nat>, u: int, k: nat, phase: Phase, steps: nat)
    requires phase != Spoilt ==> 0 <= u < |g| && k == |g[u]|
    requires Searching(g, s, dist, q, done, true, u, k, phase, steps)
    ensures Searching(g, s, dist, q, if phase == Running then done + {u} else done, false, u, k, phase, steps)
  {
    if phase == Running {
      LastKeepsSearching(g, s, dist, q.Queue(), q.size, done, u, steps);
    }
  }

  lemma LastKeepsSearching(g: Graph, s: nat, dist: Dist, c: map<int, int>, size: nat, done: set<nat>, u: nat,
                           steps: nat)
    requires u < |g| && Ongoing(g, s, dist, c, size, done, true, u, |g[u]|, steps)
    ensures Ongoing(g, s, dist, c, size, done + {u}, false, u, |g[u]|, steps)
  {
    FinishStep(g, s, dist, c, done, u);
    DegreesGrow(g, done, u, |g|);
  }

  /** dijkstra: with at least one iteration per edge out of a reachable vertex the distances and predecessors are exact,
      also for graphs with unreachable vertices, if and only if vertex 0, which an exhausted queue returns, is reachable
      or the edges taken out of it in the remaining iterations are harmless. */
  method Dijkstra(source: nat, edges: seq<EdgeEntry>, eIndex: seq<nat>, loops: nat, ghost g: Graph) returns (dist: Dist)
    requires WellFormed(g) && Layout(g, edges, eIndex) && |g| >= 2 && source < |g|
    requires loops >= ReachedEdges(g, source)
    ensures Exact(g, source, dist) <==> Unspoilt(g, source, loops)
  {
    dist := seq(|eIndex|, _ => Empty);
    var q := new HeapQ(|eIndex|, CeilLog2(|eIndex|));
    dist := dist[source := Full((0, 0))];
    q.Update(source, 0, true);
    ProgressStarts(g, source, dist);
    NothingDone(g, |g|);
    var lastEdge, iEdge: nat, u := true, 0, 0;
    ghost var done: set<nat>, k: nat, phase := {}, 0, Running;
    for i := 0 to loops
      invariant q.maxSize == |g| <= Pow2(q.levels)
      invariant Searching(g, source, dist, q, done, !lastEdge, u, k, phase, i)
      invariant phase != Spoilt && !lastEdge ==> OnEdge(g, eIndex, u, k, iEdge)
    {
      dist, lastEdge, iEdge, u, done, k, phase :=
        Iterate(g, source, dist, q, edges, eIndex, lastEdge, iEdge, u, done, k, phase, i);
    }
    AtTheEnd(g, source, dist, q, done, !lastEdge, u, k, phase, loops);
  }

  lemma AtTheEnd(g: Graph, s: nat, dist: Dist, q: HeapQ, done: set<nat>, active: bool, u: int, k: nat, phase: Phase,
                 steps: nat)
    requires Searching(g, s, dist, q, done, active, u, k, phase, steps) && steps >= ReachedEdges(g, s)
    requires (forall x :: 0 <= x < |g| ==> g[x] != []) && (phase != Spoilt && active ==> 0 <= u < |g| && k < |g[u]|)
    ensures Exact(g, s, dist) <==> Unspoilt(g, s, steps)
  {
    match phase {
      case Running =>
        AllDone(g, s, dist, q.Queue(), done, active, u, k, steps);
        EmptyQueueIsFinal(g, s, dist, q.Queue(), done, u, k);
        FinalIsExact(g, s, dist);
      case Exhausted => FinalIsExact(g, s, dist);
      case Spoilt => WrongIsNotExact(g, s, dist);
    }
  }

  lemma {:induction false} NothingDone(g: Graph, m: nat)
    requires m <= |g|
    ensures Degrees(g, {}, m) == 0
  {
    if m > 0 {
      NothingDone(g, m - 1);
    }
  }

  // ----- A graph that is spoilt -----

  /** Vertices 1 and 2 point to each other, vertex 0 to itself. */
  function OwnWay(): Graph {
    [[(0, 1)], [(2, 1)], [(1, 1)]]
  }

  lemma {:induction false} ZeroIsAlone(p: seq<nat>)
    requires IsPath(OwnWay(), 1, p)
    ensures End(OwnWay(), 1, p) in {1, 2}
    decreases |p|
  {
    if p != [] {
      ZeroIsAlone(p[..|p| - 1]);
    }
  }

  /** From vertex 1, vertex 0 is unreachable, and the first iteration left over enters its loop. */
  lemma OwnWayIsSpoilt()
    ensures WellFormed(OwnWay()) && ReachedEdges(OwnWay(), 1) <= 2 && !Unspoilt(OwnWay(), 1, 3)
  {
    var g := OwnWay();
    forall p | IsPath(g, 1, p) ensures End(g, 1, p) != 0 {
      ZeroIsAlone(p);
    }
    assert !Reachable(g, 1, 0);
    assert Degrees(g, Reached(g, 1), 1) == 0;
    assert Degrees(g, Reached(g, 1), 2) <= 1;
    assert Degrees(g, Reached(g, 1), 3) <= 2;
    assert !Harmless(g, 1, 0);
  }

  /** As many iterations as edges give the unreachable vertex 0 a distance. */
  method UnreachableZero() returns (dist: Dist)
    ensures !Exact(OwnWay(), 1, dist)
  {
    var edges := [EdgeEntry(0, 1, true), EdgeEntry(2, 1, true), EdgeEntry(1, 1, true)];
    OwnWayIsSpoilt();
    dist := Dijkstra(1, edges, [0, 1, 2], 3, OwnWay());
  }

  /** convert_graph: the edges of vertex 0, then those of vertex 1 and so on. */
  method ConvertGraph(g: Graph, capacity: nat) returns (edges: seq<EdgeEntry>, eIndex: seq<nat>)
    requires (forall u :: 0 <= u < |g| ==> g[u] != []) && EdgeCount(g, |g|) <= capacity
    ensures Layout(g, edges, eIndex) && |edges| == capacity
    ensures forall u: nat :: u < |g| ==> eIndex[u] == EdgeCount(g, u)
  {
    edges, eIndex := seq(capacity, _ => EdgeEntry(0, 0, false)), seq(|g|, _ => 0);
    var i: nat := 0;
    for v := 0 to |g|
      invariant |edges| == capacity && i == EdgeCount(g, v) && LaidOut(g, edges, eIndex, v)
    {
      CountGrows(g, v + 1, |g|);
      var i0 := i;
      ghost var before := edges;
      edges, i := PlaceEdges(g[v], edges, i);
      MoreLaidOut(g, before, edges, eIndex, v);
      eIndex := eIndex[v := i0];
    }
  }

  /** The edges of the first v vertices are in place. */
  ghost predicate LaidOut(g: Graph, edges: seq<EdgeEntry>, eIndex: seq<nat>, v: nat) {
    && v <= |g| == |eIndex| && (forall u: nat :: u < v ==> eIndex[u] == EdgeCount(g, u))
    && forall u: nat, k {:trigger EntryAt(g, edges, eIndex, u, k)} :: u < v && 0 <= k < |g[u]| ==>
         EntryAt(g, edges, eIndex, u, k)
  }

  lemma MoreLaidOut(g: Graph, before: seq<EdgeEntry>, edges: seq<EdgeEntry>, eIndex: seq<nat>, v: nat)
    requires v < |g| && LaidOut(g, before, eIndex, v) && |before| == |edges| && EdgeCount(g, v + 1) <= |edges|
    requires forall j :: 0 <= j < EdgeCount(g, v) ==> edges[j] == before[j]
    requires forall k :: 0 <= k < |g[v]| ==>
      edges[EdgeCount(g, v) + k] == EdgeEntry(g[v][k].0, g[v][k].1, k == |g[v]| - 1)
    ensures LaidOut(g, edges, eIndex[v := EdgeCount(g, v)], v + 1)
  {
    var eIndex' := eIndex[v := EdgeCount(g, v)];
    forall u: nat, k {:trigger EntryAt(g, edges, eIndex', u, k)} | u < v + 1 && 0 <= k < |g[u]|
      ensures EntryAt(g, edges, eIndex', u, k)
    {
      if u < v {
        CountGrows(g, u + 1, v);
        assert EntryAt(g, before, eIndex, u, k);
      }
    }
  }

  /** The edges of one vertex from position i on, the last one marked. */
  method PlaceEdges(out: seq<(nat, nat)>, edges: seq<EdgeEntry>, i: nat) returns (edges': seq<EdgeEntry>, i': nat)
    requires out != [] && i + |out| <= |edges|
    ensures i' == i + |out| && |edges'| == |edges|
    ensures forall j :: 0 <= j < i ==> edges'[j] == edges[j]
    ensures forall k :: 0 <= k < |out| ==> edges'[i + k] == EdgeEntry(out[k].0, out[k].1, k == |out| - 1)
  {
    edges', i' := edges, i;
    for k := 0 to |out|
      invariant i' == i + k && |edges'| == |edges|
      invariant forall j :: 0 <= j < i ==> edges'[j] == edges[j]
      invariant forall l :: 0 <= l < k ==> edges'[i + l] == EdgeEntry(out[l].0, out[l].1, false)
    {
      edges' := edges'[i' := EdgeEntry(out[k].0, out[k].1, false)];
      i' := i' + 1;
    }
    edges' := edges'[i' - 1 := edges'[i' - 1].(last := true)];
  }

  lemma {:induction false} CountGrows(g: Graph, a: nat, b: nat)
    requires a <= b <= |g|
    ensures EdgeCount(g, a) <= EdgeCount(g, b)
    decreases b
  {
    if a < b {
      CountGrows(g, a, b - 1);
    }
  }
}
