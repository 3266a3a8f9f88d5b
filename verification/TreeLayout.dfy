/** How the samples of a decision tree are laid out: groups of samples with one node number each, kept together from
    layer to layer. */
module TreeLayout {
  import opened Vectors
  import opened StablePartition
  import opened GroupOps
  import opened GroupMaximum
  import opened Powers

  /** Samples with the same node number lie together, `g` is 1 exactly where a group begins, and the numbers of level
      k are in 1..2^k. */
  ghost predicate Layout(g: seq<int>, nid: seq<int>, k: nat) {
    && Grouped(g) && |nid| == |g|
    && (forall i :: 0 <= i < |nid| ==> 1 <= nid[i] <= Pow2(k))
    && (forall i :: 0 < i < |nid| ==> (g[i] == 1 <==> nid[i] != nid[i - 1]))
    && (forall i, j, l :: 0 <= i < j < l < |nid| && nid[i] == nid[l] ==> nid[i] == nid[j])
  }

  /** Two samples have the same node number exactly if they are in the same group. */
  lemma SameNode(g: seq<int>, nid: seq<int>, k: nat, i: nat, j: nat)
    requires Layout(g, nid, k) && i < |g| && j < |g|
    ensures nid[i] == nid[j] <==> Head(g, i) == Head(g, j)
    ensures nid[i] == nid[j] <==> Head(g, i) <= j < End(g, i)
  {
    if i <= j {
      SameNodeAhead(g, nid, k, i, j);
    } else {
      SameNodeAhead(g, nid, k, j, i);
    }
  }

  lemma {:induction false} SameNodeAhead(g: seq<int>, nid: seq<int>, k: nat, i: nat, j: nat)
    requires Layout(g, nid, k) && i <= j < |g|
    ensures nid[i] == nid[j] <==> Head(g, j) <= i
    ensures nid[i] == nid[j] ==> Head(g, i) == Head(g, j) && End(g, i) == End(g, j)
    decreases j - i
  {
    if i < j {
      if nid[i] == nid[j] {
        SameNodeAhead(g, nid, k, i, j - 1);
        assert nid[j - 1] == nid[i];
        SameGroup(g, j - 1, j);
      } else if Head(g, j) <= i {
        NoChange(g, nid, k, i, j);
      }
    }
  }

  lemma {:induction false} NoChange(g: seq<int>, nid: seq<int>, k: nat, i: nat, j: nat)
    requires Layout(g, nid, k) && i <= j < |g| && forall l :: i < l <= j ==> g[l] == 0
    ensures nid[i] == nid[j]
    decreases j - i
  {
    if i < j {
      NoChange(g, nid, k, i, j - 1);
    }
  }

  // ----- At most 2^k groups -----

  /** The node numbers of the first i samples' groups. */
  ghost function Nodes(g: seq<int>, nid: seq<int>, i: nat): set<int>
    requires |g| == |nid| && i <= |g|
  {
    if i == 0 then {} else Nodes(g, nid, i - 1) + if g[i - 1] == 1 then {nid[i - 1]} else {}
  }

  lemma {:induction false} NodesAre(g: seq<int>, nid: seq<int>, k: nat, i: nat, v: int)
    requires Layout(g, nid, k) && i <= |g| && v in Nodes(g, nid, i)
    ensures exists j :: 0 <= j < i && g[j] == 1 && nid[j] == v
  {
    if v in Nodes(g, nid, i - 1) {
      NodesAre(g, nid, k, i - 1, v);
    }
  }

  /** A new group has a new number. */
  lemma NewNumber(g: seq<int>, nid: seq<int>, k: nat, j: nat, i: nat)
    requires Layout(g, nid, k) && j < i < |g| && g[i] == 1
    ensures nid[j] != nid[i]
  {
    SameNodeAhead(g, nid, k, j, i);
  }

  lemma NewNode(g: seq<int>, nid: seq<int>, k: nat, i: nat)
    requires Layout(g, nid, k) && i < |g| && g[i] == 1
    ensures nid[i] !in Nodes(g, nid, i)
  {
    forall j: nat | j < i ensures nid[j] != nid[i] {
      NewNumber(g, nid, k, j, i);
    }
    if nid[i] in Nodes(g, nid, i) {
      NodesAre(g, nid, k, i, nid[i]);
    }
  }

  lemma {:induction false} GroupsCounted(g: seq<int>, nid: seq<int>, k: nat, i: nat)
    requires Layout(g, nid, k) && i <= |g|
    ensures |Nodes(g, nid, i)| == Sum(g, 0, i)
  {
    if i > 0 {
      GroupsCounted(g, nid, k, i - 1);
      if g[i - 1] == 1 {
        NewNode(g, nid, k, i - 1);
      }
    }
  }

  lemma NodesInRange(g: seq<int>, nid: seq<int>, k: nat)
    requires Layout(g, nid, k)
    ensures Nodes(g, nid, |g|) <= Below(Pow2(k) + 1) - {0}
  {
    forall v | v in Nodes(g, nid, |g|) ensures 1 <= v <= Pow2(k) {
      NodesAre(g, nid, k, |g|, v);
    }
  }

  lemma SubsetSize(a: set<int>, b: set<int>)
    requires a <= b
    ensures |a| <= |b|
  {
    assert b == a + (b - a);
  }

  lemma FewGroups(g: seq<int>, nid: seq<int>, k: nat)
    requires Layout(g, nid, k)
    ensures 1 <= Sum(g, 0, |g|) <= Pow2(k) && Sum(g, 0, |g|) <= |g|
  {
    GroupsCounted(g, nid, k, |g|);
    NodesInRange(g, nid, k);
    SubsetSize(Nodes(g, nid, |g|), Below(Pow2(k) + 1) - {0});
    SumOfBits(g, 0, |g|);
    SumSplits(g, 0, 1, |g|);
    SumOfBits(g, 1, |g|);
    assert Sum(g, 0, 1) == Sum(g, 0, 0) + g[0];
  }

  // ----- The next layer -----

  ghost function Source(c: seq<int>, q: nat): (i: nat)
    requires Permutes(c) && q < |c|
    ensures i < |c| && c[i] == q
  {
    OntoExists(c, q);
    var i: nat :| i < |c| && c[i] == q;
    i
  }

  lemma OntoExists(c: seq<int>, q: nat)
    requires Permutes(c) && q < |c|
    ensures exists i: nat :: i < |c| && c[i] == q
  {
    var i := Onto(c, q);
  }

  /** A position takes its entry from its source. */
  lemma FromSource<T>(c: seq<int>, x: seq<T>, q: nat)
    requires Permutes(c) && |x| == |c| && q < |c|
    ensures Apply(c, x)[q] == x[Source(c, q)]
  {
    AppliedAt(c, x, Source(c, q));
  }

  ghost predicate SameSide(b: seq<int>, p: nat, q: nat) {
    p < Zeros(b) <==> q < Zeros(b)
  }

  /** The sources of two positions: in order on either side. */
  lemma SourceOrder(b: seq<int>, p: nat, q: nat)
    requires Bits(b) && p < q < |b|
    ensures Permutes(DestComp(b))
    ensures SameSide(b, p, q) <==> b[Source(DestComp(b), p)] == b[Source(DestComp(b), q)]
    ensures SameSide(b, p, q) ==> Source(DestComp(b), p) < Source(DestComp(b), q)
  {
    DestPermutes(b);
    var c := DestComp(b);
    var i, j := Source(c, p), Source(c, q);
    DestRange(b, i);
    DestRange(b, j);
    if j < i {
      DestOrder(b, j, i);
    }
  }

  /** Between the sources of two neighbours of one side no sample has their bit. */
  lemma NothingBetween(b: seq<int>, q: nat, j: nat)
    requires Bits(b) && q < |b|
    ensures Permutes(DestComp(b))
    ensures j < Source(DestComp(b), q) && b[j] == b[Source(DestComp(b), q)] ==>
              q > 0 && SameSide(b, q - 1, q) && j <= Source(DestComp(b), q - 1)
  {
    DestPermutes(b);
    var c := DestComp(b);
    var i := Source(c, q);
    if j < i && b[j] == b[i] {
      DestOrder(b, j, i);
      DestRange(b, j);
      DestRange(b, i);
      var p := Source(c, q - 1);
      DestRange(b, p);
      if p < j {
        SourceOrder(b, q - 1, q);
        DestOrder(b, p, j);
        assert false;
      }
    }
  }

  /** NID[:] = 2^k * b + NID */
  function NextNid(nid: seq<int>, b: seq<int>, k: nat): (r: seq<int>)
    requires |b| == |nid|
    ensures |r| == |nid|
  {
    seq(|nid|, i requires 0 <= i < |nid| => Pow2(k) * b[i] + nid[i])
  }

  /** g[:] = GroupFirstOne(g, b_not) + GroupFirstOne(g, b) */
  function NextHeads(g: seq<int>, b: seq<int>): (r: seq<int>)
    requires Bits(g) && |b| == |g|
    ensures |r| == |g|
  {
    var zeros, ones := GroupFirstOne(g, Not(b)), GroupFirstOne(g, b);
    seq(|g|, i requires 0 <= i < |g| => zeros[i] + ones[i])
  }

  /** The next numbers tell both the old number and the bit. */
  lemma NextNidTells(nid: seq<int>, b: seq<int>, k: nat, i: nat, j: nat)
    requires |b| == |nid| && Bits(b) && i < |nid| && j < |nid|
    requires 1 <= nid[i] <= Pow2(k) && 1 <= nid[j] <= Pow2(k)
    ensures 1 <= NextNid(nid, b, k)[i] <= Pow2(k + 1)
    ensures NextNid(nid, b, k)[i] == NextNid(nid, b, k)[j] <==> nid[i] == nid[j] && b[i] == b[j]
  {
    assert Pow2(k) * 0 == 0 && Pow2(k) * 1 == Pow2(k);
  }

  /** The next heads: the first of either bit in every group. */
  lemma NextHeadIs(g: seq<int>, b: seq<int>, i: nat)
    requires Grouped(g) && |b| == |g| && Bits(b) && i < |g|
    ensures NextHeads(g, b)[i] == 0 || NextHeads(g, b)[i] == 1
    ensures NextHeads(g, b)[i] == 1 <==> forall j :: Head(g, i) <= j < i ==> b[j] != b[i]
  {
    assert Bits(Not(b));
    GroupFirstOneIs(g, b, i);
    GroupFirstOneIs(g, Not(b), i);
    assert forall j :: 0 <= j < |b| ==> Not(b)[j] == 1 - b[j];
  }

  /** One layer: renumber, mark, and sort by the bit. */
  ghost predicate NextLayout(g: seq<int>, nid: seq<int>, b: seq<int>, k: nat, g': seq<int>, nid': seq<int>)
    requires |nid| == |g| == |b| && Bits(g) && Permutes(DestComp(b))
  {
    g' == Apply(DestComp(b), NextHeads(g, b)) && nid' == Apply(DestComp(b), NextNid(nid, b, k))
  }

  lemma NextAt(g: seq<int>, nid: seq<int>, b: seq<int>, k: nat, g': seq<int>, nid': seq<int>, q: nat)
    requires Layout(g, nid, k) && |b| == |g| && Bits(b) && Permutes(DestComp(b)) && q < |g|
    requires NextLayout(g, nid, b, k, g', nid')
    ensures g'[q] == NextHeads(g, b)[Source(DestComp(b), q)]
    ensures nid'[q] == NextNid(nid, b, k)[Source(DestComp(b), q)] && 1 <= nid'[q] <= Pow2(k + 1)
  {
    FromSource(DestComp(b), NextHeads(g, b), q);
    FromSource(DestComp(b), NextNid(nid, b, k), q);
    NextNidTells(nid, b, k, Source(DestComp(b), q), Source(DestComp(b), q));
  }

  /** A head exactly where the number changes. */
  lemma HeadsStayRight(g: seq<int>, nid: seq<int>, b: seq<int>, k: nat, g': seq<int>, nid': seq<int>, q: nat)
    requires Layout(g, nid, k) && |b| == |g| && Bits(b) && Permutes(DestComp(b)) && q < |g|
    requires NextLayout(g, nid, b, k, g', nid')
    ensures g'[q] == 0 || g'[q] == 1
    ensures g'[q] == 1 <==> q == 0 || nid'[q] != nid'[q - 1]
  {
    hide DestComp, Permutes, NextHeads, NextNid, NextLayout, Source;
    var c := DestComp(b);
    var i := Source(c, q);
    NextAt(g, nid, b, k, g', nid', q);
    NextHeadIs(g, b, i);
    if q == 0 {
      forall j | Head(g, i) <= j < i ensures b[j] != b[i] {
        NothingBetween(b, q, j);
      }
    } else {
      var p := Source(c, q - 1);
      NextAt(g, nid, b, k, g', nid', q - 1);
      NextNidTells(nid, b, k, i, p);
      SourceOrder(b, q - 1, q);
      NeighbourHeads(g, nid, b, k, q);
    }
  }

  lemma NeighbourHeads(g: seq<int>, nid: seq<int>, b: seq<int>, k: nat, q: nat)
    requires Layout(g, nid, k) && |b| == |g| && Bits(b) && Permutes(DestComp(b)) && 0 < q < |g|
    ensures var i, p := Source(DestComp(b), q), Source(DestComp(b), q - 1);
            (forall j :: Head(g, i) <= j < i ==> b[j] != b[i]) <==> !(nid[i] == nid[p] && b[i] == b[p])
  {
    hide DestComp, Permutes, Source, Zeros;
    var i, p := Source(DestComp(b), q), Source(DestComp(b), q - 1);
    SourceOrder(b, q - 1, q);
    SameNode(g, nid, k, i, p);
    if b[i] == b[p] && nid[i] == nid[p] {
      assert Head(g, i) <= p < i;
    } else {
      forall j | Head(g, i) <= j < i ensures b[j] != b[i] {
        NothingBetween(b, q, j);
        if b[j] == b[i] {
          SameNode(g, nid, k, i, p);
        }
      }
    }
  }

  /** Equal numbers still lie together. */
  lemma NumbersStayTogether(g: seq<int>, nid: seq<int>, b: seq<int>, k: nat, g': seq<int>, nid': seq<int>, q: nat,
                            r: nat, t: nat)
    requires Layout(g, nid, k) && |b| == |g| && Bits(b) && Permutes(DestComp(b)) && q < r < t < |g|
    requires NextLayout(g, nid, b, k, g', nid') && nid'[q] == nid'[t]
    ensures nid'[q] == nid'[r]
  {
    hide DestComp, Permutes, NextHeads, NextNid, NextLayout, Source, Zeros;
    var c := DestComp(b);
    NextAt(g, nid, b, k, g', nid', q);
    NextAt(g, nid, b, k, g', nid', r);
    NextAt(g, nid, b, k, g', nid', t);
    NextNidTells(nid, b, k, Source(c, q), Source(c, t));
    NextNidTells(nid, b, k, Source(c, q), Source(c, r));
    SourceOrder(b, q, t);
    SourceOrder(b, q, r);
    SourceOrder(b, r, t);
  }

  /** The layout is kept from layer to layer. */
  lemma LayoutKept(g: seq<int>, nid: seq<int>, b: seq<int>, k: nat, g': seq<int>, nid': seq<int>)
    requires Layout(g, nid, k) && |b| == |g| && Bits(b) && Permutes(DestComp(b))
    requires NextLayout(g, nid, b, k, g', nid')
    ensures Layout(g', nid', k + 1)
  {
    hide DestComp, Permutes, Pow2, Source, NextHeads, NextNid;
    forall q: nat | q < |g| ensures g'[q] == 0 || g'[q] == 1 {
      HeadsStayRight(g, nid, b, k, g', nid', q);
    }
    forall q: nat | q < |g| ensures 1 <= nid'[q] <= Pow2(k + 1) {
      NextAt(g, nid, b, k, g', nid', q);
    }
    HeadsStayRight(g, nid, b, k, g', nid', 0);
    forall q | 0 < q < |g| ensures g'[q] == 1 <==> nid'[q] != nid'[q - 1] {
      HeadsStayRight(g, nid, b, k, g', nid', q);
    }
    forall q, r, t | 0 <= q < r < t < |g| && nid'[q] == nid'[t] ensures nid'[q] == nid'[r] {
      NumbersStayTogether(g, nid, b, k, g', nid', q, r, t);
    }
  }
}
