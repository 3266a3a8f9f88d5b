/** Decision trees on secret data: layers packed from the groups, and the walk of a sample through them. */
module DecisionTree {
  import opened Vectors
  import opened StablePartition
  import opened GroupOps
  import opened GroupMaximum
  import opened Powers
  import opened TreeLayout

  datatype Layer = Layer(nid: seq<int>, aid: seq<int>, threshold: seq<int>)

  datatype Tree = Tree(layers: seq<Layer>, leafNid: seq<int>, leafLabel: seq<int>)

  // ----- Layers -----

  /** FormatLayer_without_crop for one column: the entries at the heads in front, zeros behind. */
  function FormatColumn(g: seq<int>, a: seq<int>): (r: seq<int>)
    requires Bits(g) && |a| == |g|
    ensures |r| == |a|
  {
    NotNot(g);
    Apply(DestComp(Not(g)), seq(|g|, i requires 0 <= i < |g| => if g[i] == 1 then a[i] else 0))
  }

  /** CropLayer without a limit on the number of leaves. */
  function Crop(k: nat, v: seq<int>): (r: seq<int>) {
    v[..if Pow2(k) < |v| then Pow2(k) else |v|]
  }

  /** A head's entry is at its rank. */
  lemma FormattedHead(g: seq<int>, a: seq<int>, i: nat)
    requires Bits(g) && |a| == |g| && i < |g| && g[i] == 1
    ensures 0 <= Sum(g, 0, i) < |g| && FormatColumn(g, a)[Sum(g, 0, i)] == a[i]
  {
    HeadGoes(g, a, i);
    NotNot(g);
    AppliedAt(DestComp(Not(g)), seq(|g|, j requires 0 <= j < |g| => if g[j] == 1 then a[j] else 0), i);
  }

  /** Every place holds the entries of one head, or only zeros. */
  lemma FormattedFrom(g: seq<int>, q: nat) returns (i: nat)
    requires Bits(g) && q < |g|
    ensures i < |g|
    ensures g[i] == 1 ==> Sum(g, 0, i) == q && forall a: seq<int> {:trigger FormatColumn(g, a)} :: |a| == |g| ==>
      FormatColumn(g, a)[q] == a[i]
    ensures g[i] == 0 ==> forall a: seq<int> {:trigger FormatColumn(g, a)} :: |a| == |g| ==> FormatColumn(g, a)[q] == 0
  {
    NotNot(g);
    i := Onto(DestComp(Not(g)), q);
    forall a: seq<int> {:trigger FormatColumn(g, a)} | |a| == |g|
      ensures FormatColumn(g, a)[q] == if g[i] == 1 then a[i] else 0
    {
      AppliedAt(DestComp(Not(g)), seq(|g|, j requires 0 <= j < |g| => if g[j] == 1 then a[j] else 0), i);
    }
    if g[i] == 1 {
      HeadGoes(g, g, i);
    }
  }

  // ----- Picking a node -----

  /** A comparison of k-bit numbers: right whenever the difference has at most k bits. */
  type Equal = (int, int, nat) -> bool

  ghost predicate Compares(eq: Equal) {
    forall a: int, b: int, k: nat {:trigger eq(a, b, k)} :: a - b < Pow2(k) && b - a < Pow2(k) ==>
      (eq(a, b, k) <==> a == b)
  }

  function Matches(eq: Equal, nid: seq<int>, index: int, k: nat): (bits: seq<int>)
    ensures |bits| == |nid| && Bits(bits)
  {
    seq(|nid|, q requires 0 <= q < |nid| => if eq(nid[q], index, k) then 1 else 0)
  }

  /** The dot product. */
  function Pick(bits: seq<int>, x: seq<int>): int
    requires |bits| == |x|
  {
    Sum(Times(bits, x), 0, |x|)
  }

  /** Looking up a node number picks the entry of its group. */
  lemma PicksGroup(eq: Equal, g: seq<int>, nid: seq<int>, k: nat, a: seq<int>, i: nat)
    requires Compares(eq) && Layout(g, nid, k) && |a| == |g| && i < |g|
    ensures Pick(Matches(eq, Crop(k, FormatColumn(g, nid)), nid[i], k), Crop(k, FormatColumn(g, a))) == a[Head(g, i)]
  {
    hide Sum;
    var h := Head(g, i);
    var r := Sum(g, 0, h);
    FewGroups(g, nid, k);
    HeadRank(g, h);
    FormattedHead(g, nid, h);
    FormattedHead(g, a, h);
    SameNode(g, nid, k, i, h);
    var nids, as_ := Crop(k, FormatColumn(g, nid)), Crop(k, FormatColumn(g, a));
    var bits := Matches(eq, nids, nid[i], k);
    var products := Times(bits, as_);
    assert nids[r] == nid[i] && as_[r] == a[h];
    assert eq(nid[i], nid[i], k);
    assert products[r] == 1 * a[h];
    forall q: nat | q < |products| && q != r ensures products[q] == 0 {
      OthersNotPicked(eq, g, nid, k, a, i, q);
    }
    SumSingle(products, 0, r, |products|);
  }

  lemma HeadRank(g: seq<int>, h: nat)
    requires Bits(g) && h < |g| && g[h] == 1
    ensures 0 <= Sum(g, 0, h) < Sum(g, 0, |g|)
  {
    SumOfBits(g, 0, h);
    SumSplits(g, 0, h + 1, |g|);
    SumOfBits(g, h + 1, |g|);
    assert Sum(g, 0, h + 1) == Sum(g, 0, h) + g[h];
  }

  lemma OthersNotPicked(eq: Equal, g: seq<int>, nid: seq<int>, k: nat, a: seq<int>, i: nat, q: nat)
    requires Compares(eq) && Layout(g, nid, k) && |a| == |g| && i < |g|
    requires q < |Crop(k, FormatColumn(g, a))| && q != Sum(g, 0, Head(g, i))
    ensures Times(Matches(eq, Crop(k, FormatColumn(g, nid)), nid[i], k), Crop(k, FormatColumn(g, a)))[q] == 0
  {
    hide Sum, FormatColumn;
    var j := FormattedFrom(g, q);
    var bit := Matches(eq, Crop(k, FormatColumn(g, nid)), nid[i], k)[q];
    var entry := Crop(k, FormatColumn(g, a))[q];
    assert entry == FormatColumn(g, a)[q];
    if g[j] == 1 {
      SameNode(g, nid, k, i, j);
      assert Head(g, j) == j;
      assert FormatColumn(g, nid)[q] == nid[j];
      assert !eq(nid[j], nid[i], k);
      assert bit == 0;
    } else {
      assert entry == 0;
    }
    assert bit * entry == 0;
  }

  // ----- The walk of a sample -----

  /** The entry with this number, 0 if there is none. */
  function At(data: seq<int>, a: int): (entry: int)
    ensures 0 <= a < |data| ==> entry == data[a]
  {
    if 0 <= a < |data| then data[a] else 0
  }

  /** The node number after the first k layers. */
  function Walk(eq: Equal, layers: seq<Layer>, k: nat, data: seq<int>): int
    requires k <= |layers| && WellFormed(layers)
  {
    if k == 0 then 1 else
      var index, layer := Walk(eq, layers, k - 1, data), layers[k - 1];
      var bits := Matches(eq, layer.nid, index, k - 1);
      var key := At(data, Pick(bits, layer.aid));
      index + if 2 * key < Pick(bits, layer.threshold) then Pow2(k - 1) else 0
  }

  predicate WellFormed(layers: seq<Layer>) {
    forall l :: 0 <= l < |layers| ==> |layers[l].aid| == |layers[l].nid| == |layers[l].threshold|
  }

  /** run_decision_tree: from the root down, one comparison in every layer. */
  method RunDecisionTree(eq: Equal, tree: Tree, data: seq<int>) returns (guess: int)
    requires WellFormed(tree.layers) && |tree.leafLabel| == |tree.leafNid|
    ensures guess == Pick(Matches(eq, tree.leafNid, Walk(eq, tree.layers, |tree.layers|, data), |tree.layers|),
                          tree.leafLabel)
  {
    var index := 1;
    for k := 0 to |tree.layers|
      invariant index == Walk(eq, tree.layers, k, data)
    {
      var layer := tree.layers[k];
      var bits := Matches(eq, layer.nid, index, k);
      var threshold := Pick(bits, layer.threshold);
      var key := At(data, Pick(bits, layer.aid));
      if 2 * key < threshold {
        index := index + Pow2(k);
      }
    }
    var bits := Matches(eq, tree.leafNid, index, |tree.layers|);
    guess := Pick(bits, tree.leafLabel);
  }

  /** A walk depends only on the layers it passes. */
  lemma {:induction false} WalkOfPrefix(eq: Equal, layers: seq<Layer>, more: Layer, k: nat, data: seq<int>)
    requires k <= |layers| && WellFormed(layers) && WellFormed(layers + [more])
    ensures Walk(eq, layers + [more], k, data) == Walk(eq, layers, k, data)
  {
    if k > 0 {
      WalkOfPrefix(eq, layers, more, k - 1, data);
      assert (layers + [more])[k - 1] == layers[k - 1];
    }
  }
}
