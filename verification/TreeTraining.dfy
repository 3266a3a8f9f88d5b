/** Training a decision tree layer by layer. How good a test is for a group is left to a parameter; how the best test
    of every group is found, how samples are sorted, and what the tree then says are not. */
module TestSelection {
  import opened Vectors
  import opened GroupOps
  import opened GroupMaximum
  import opened Powers

  datatype Candidate = Candidate(score: int, aid: int, threshold: int)

  /** VectMax's reducer: the right one unless the left one is strictly better. */
  function Better(a: Candidate, b: Candidate): Candidate {
    if a.score > b.score then a else b
  }

  function PairUp(s: seq<Candidate>): (r: seq<Candidate>)
    ensures |r| == |s| / 2 + |s| % 2
  {
    if |s| < 2 then s else [Better(s[0], s[1])] + PairUp(s[2..])
  }

  function TreeReduce(s: seq<Candidate>): Candidate
    requires |s| > 0
    decreases |s|
  {
    if |s| == 1 then s[0] else TreeReduce(PairUp(s))
  }

  ghost function Best(s: seq<Candidate>): Candidate
    requires |s| > 0
  {
    if |s| == 1 then s[0] else Better(s[0], Best(s[1..]))
  }

  lemma {:induction false} PairUpKeepsBest(s: seq<Candidate>)
    requires |s| > 0
    ensures Best(PairUp(s)) == Best(s)
  {
    if |s| > 2 {
      PairUpKeepsBest(s[2..]);
      assert PairUp(s)[1..] == PairUp(s[2..]);
      assert s[1..][1..] == s[2..];
    } else if |s| == 2 {
      assert PairUp(s) == [Better(s[0], s[1])];
      assert s[1..] == [s[1]];
    }
  }

  lemma {:induction false} TreeFindsBest(s: seq<Candidate>)
    requires |s| > 0
    ensures TreeReduce(s) == Best(s)
    decreases |s|
  {
    if |s| > 1 {
      PairUpKeepsBest(s);
      TreeFindsBest(PairUp(s));
    }
  }

  ghost function Scores(s: seq<Candidate>): (r: seq<int>)
    ensures |r| == |s|
  {
    seq(|s|, j requires 0 <= j < |s| => s[j].score)
  }

  lemma {:induction false} BestIsMaximal(s: seq<Candidate>) returns (a: nat)
    requires |s| > 0
    ensures a < |s| && Best(s) == s[a]
    ensures forall j :: 0 <= j < |s| ==> s[j].score <= s[a].score
    ensures forall j :: a < j < |s| ==> s[j].score < s[a].score
  {
    if |s| == 1 {
      a := 0;
    } else {
      var rest := BestIsMaximal(s[1..]);
      assert s[1..][rest] == s[rest + 1];
      assert forall j :: 1 <= j < |s| ==> s[j] == s[1..][j - 1];
      a := if s[0].score > s[rest + 1].score then 0 else rest + 1;
    }
  }

  /** The tree reduction gives the last candidate with the highest score. */
  lemma TreeReduceIsMaximal(s: seq<Candidate>)
    requires |s| > 0
    ensures TreeReduce(s) == s[ArgMax(Scores(s), 0, |s|)]
  {
    hide Best, TreeReduce, ArgMax;
    TreeFindsBest(s);
    var a := BestIsMaximal(s);
    var b := ArgMax(Scores(s), 0, |s|);
    assert Scores(s)[a] == s[a].score && Scores(s)[b] == s[b].score;
  }

  // ----- One test for every group -----

  /** Scores and thresholds of an attribute's tests at every position, given the number of the attribute, the heads,
      the attribute's values and the labels. */
  type Tests = (nat, seq<int>, seq<int>, seq<int>) -> (seq<int>, seq<int>)

  ghost predicate Sized(tests: Tests) {
    forall j: nat, g: seq<int>, x: seq<int>, y: seq<int> {:trigger tests(j, g, x, y)} ::
      |tests(j, g, x, y).0| == |tests(j, g, x, y).1| == |g|
  }

  /** The best test of attribute j in i's group. */
  ghost function GroupTest(tests: Tests, g: seq<int>, x: seq<seq<int>>, y: seq<int>, j: nat, i: nat): Candidate
    requires Sized(tests) && Grouped(g) && j < |x| && i < |g|
  {
    var t := tests(j, g, x[j], y);
    var p := ArgMax(t.0, Head(g, i), End(g, i));
    Candidate(t.0[p], j, t.1[p])
  }

  ghost function GroupTests(tests: Tests, g: seq<int>, x: seq<seq<int>>, y: seq<int>, i: nat): (r: seq<Candidate>)
    requires Sized(tests) && Grouped(g) && i < |g|
    ensures |r| == |x| && forall j: nat :: j < |x| ==> r[j] == GroupTest(tests, g, x, y, j, i)
  {
    seq(|x|, j requires 0 <= j < |x| => GroupTest(tests, g, x, y, j, i))
  }

  /** The best test of all attributes for i's group. */
  ghost function Selected(tests: Tests, g: seq<int>, x: seq<seq<int>>, y: seq<int>, i: nat): (c: Candidate)
    requires Sized(tests) && Grouped(g) && i < |g| && |x| > 0
    ensures 0 <= c.aid < |x|
  {
    var all := GroupTests(tests, g, x, y, i);
    all[ArgMax(Scores(all), 0, |all|)]
  }

  /** A group has one test. */
  lemma OneTestPerGroup(tests: Tests, g: seq<int>, x: seq<seq<int>>, y: seq<int>, i: nat, j: nat)
    requires Sized(tests) && Grouped(g) && |x| > 0 && i < |g| && j < |g| && Head(g, i) == Head(g, j)
    ensures Selected(tests, g, x, y, i) == Selected(tests, g, x, y, j)
  {
    hide ArgMax, Head, End;
    if i <= j {
      SameGroup(g, i, j);
    } else {
      SameGroup(g, j, i);
    }
    forall l: nat | l < |x| ensures GroupTest(tests, g, x, y, l, i) == GroupTest(tests, g, x, y, l, j) {
    }
    assert GroupTests(tests, g, x, y, i) == GroupTests(tests, g, x, y, j);
  }

  /** Column l holds the best score and threshold of attribute l for every position's group. */
  ghost predicate BestColumn(tests: Tests, g: seq<int>, x: seq<seq<int>>, y: seq<int>, l: nat, s: seq<int>, t: seq<int>)
    requires Sized(tests) && Grouped(g) && l < |x|
  {
    |s| == |t| == |g|
    && forall i: nat {:trigger s[i]} {:trigger t[i]} :: i < |g| ==>
         Candidate(s[i], l, t[i]) == GroupTest(tests, g, x, y, l, i)
  }

  /** AttributeWiseTestSelection: the best test of one attribute for every group. */
  method AttributeTest(tests: Tests, g: seq<int>, x: seq<seq<int>>, y: seq<int>, j: nat)
    returns (s: seq<int>, t: seq<int>)
    requires Sized(tests) && Grouped(g) && j < |x|
    ensures BestColumn(tests, g, x, y, j, s, t)
  {
    hide ArgMax, Head, End;
    var test := tests(j, g, x[j], y);
    var best, data := GroupMax(g, test.0, [test.1]);
    s, t := best, data[0];
    forall i: nat {:trigger s[i]} {:trigger t[i]} | i < |g|
      ensures Candidate(s[i], j, t[i]) == GroupTest(tests, g, x, y, j, i)
    {
      assert data[0][i] == [test.1][0][ArgMax(test.0, Head(g, i), End(g, i))];
    }
  }

  /** VectMax at one position. */
  method BestTest(tests: Tests, g: seq<int>, x: seq<seq<int>>, y: seq<int>, s: seq<seq<int>>, t: seq<seq<int>>, i: nat)
    returns (best: Candidate)
    requires Sized(tests) && Grouped(g) && |x| > 0 && |s| == |t| == |x| && i < |g|
    requires forall l: nat :: l < |x| ==> BestColumn(tests, g, x, y, l, s[l], t[l])
    ensures best == Selected(tests, g, x, y, i)
  {
    hide ArgMax, GroupTest, TreeReduce;
    var all := [];
    for j := 0 to |x|
      invariant all == GroupTests(tests, g, x, y, i)[..j]
    {
      assert BestColumn(tests, g, x, y, j, s[j], t[j]);
      all := all + [Candidate(s[j][i], j, t[j][i])];
    }
    assert all == GroupTests(tests, g, x, y, i);
    TreeReduceIsMaximal(all);
    best := TreeReduce(all);
  }

  /** The best test of every attribute, then the best of them at every position. */
  method GlobalTestSelection(tests: Tests, g: seq<int>, x: seq<seq<int>>, y: seq<int>)
    returns (aid: seq<int>, threshold: seq<int>)
    requires Sized(tests) && Grouped(g) && |x| > 0
    ensures |aid| == |threshold| == |g|
    ensures forall i: nat :: i < |g| ==>
      aid[i] == Selected(tests, g, x, y, i).aid && threshold[i] == Selected(tests, g, x, y, i).threshold
  {
    hide BestColumn, Selected;
    var s: seq<seq<int>>, t: seq<seq<int>> := [], [];
    for j := 0 to |x|
      invariant |s| == |t| == j && forall l: nat :: l < j ==> BestColumn(tests, g, x, y, l, s[l], t[l])
    {
      var scores, thresholds := AttributeTest(tests, g, x, y, j);
      s, t := s + [scores], t + [thresholds];
    }
    aid, threshold := [], [];
    for i := 0 to |g|
      invariant |aid| == |threshold| == i
      invariant forall l: nat :: l < i ==>
        aid[l] == Selected(tests, g, x, y, l).aid && threshold[l] == Selected(tests, g, x, y, l).threshold
    {
      var best := BestTest(tests, g, x, y, s, t, i);
      aid, threshold := aid + [best.aid], threshold + [best.threshold];
    }
  }
}

/** TreeTrainer and the tree it returns. */
module TreeTraining {
  import opened Vectors
  import opened StablePartition
  import opened PermutedSums
  import opened GroupOps
  import opened GroupMaximum
  import opened Powers
  import opened TreeLayout
  import opened DecisionTree
  import opened TestSelection

  const MIN_VALUE := -10000

  /** The attributes of sample i. */
  function Column(x: seq<seq<int>>, i: nat): (c: seq<int>)
    requires forall j :: 0 <= j < |x| ==> i < |x[j]|
    ensures |c| == |x|
  {
    seq(|x|, j requires 0 <= j < |x| => x[j][i])
  }

  predicate Rectangular(x: seq<seq<int>>, n: nat) {
    |x| > 0 && forall j :: 0 <= j < |x| ==> |x[j]| == n
  }

  // ----- The tests of one layer -----

  /** The tests a layer applies: one for every group, and none for a group whose labels agree. */
  ghost function LayerTest(tests: Tests, g: seq<int>, x: seq<seq<int>>, y: seq<int>, i: nat): (int, int)
    requires Sized(tests) && Grouped(g) && Bits(y) && |y| == |g| && i < |g| && Rectangular(x, |g|)
  {
    if AllSame(y, Head(g, i), End(g, i)) then (0, MIN_VALUE)
    else (Selected(tests, g, x, y, i).aid, Selected(tests, g, x, y, i).threshold)
  }

  lemma LayerTestPerGroup(tests: Tests, g: seq<int>, x: seq<seq<int>>, y: seq<int>, i: nat)
    requires Sized(tests) && Grouped(g) && Bits(y) && |y| == |g| && i < |g| && Rectangular(x, |g|)
    ensures LayerTest(tests, g, x, y, Head(g, i)) == LayerTest(tests, g, x, y, i)
  {
    hide Selected, AllSame;
    var h := Head(g, i);
    SameGroup(g, h, i);
    assert Head(g, h) == h;
    OneTestPerGroup(tests, g, x, y, h, i);
  }

  /** The tests are the layer's tests at every position. */
  ghost predicate Selects(tests: Tests, g: seq<int>, x: seq<seq<int>>, y: seq<int>, aid: seq<int>, threshold: seq<int>)
    requires Sized(tests) && Grouped(g) && Bits(y) && |y| == |g| && Rectangular(x, |g|)
  {
    |aid| == |threshold| == |g|
    && forall i: nat {:trigger aid[i]} {:trigger threshold[i]} :: i < |g| ==>
         (aid[i], threshold[i]) == LayerTest(tests, g, x, y, i)
  }

  lemma SelectsPerGroup(tests: Tests, g: seq<int>, x: seq<seq<int>>, y: seq<int>, aid: seq<int>, threshold: seq<int>)
    requires Sized(tests) && Grouped(g) && Bits(y) && |y| == |g| && Rectangular(x, |g|)
    requires Selects(tests, g, x, y, aid, threshold)
    ensures forall i: nat {:trigger Head(g, i)} :: i < |g| ==>
      aid[Head(g, i)] == aid[i] && threshold[Head(g, i)] == threshold[i]
  {
    hide LayerTest;
    forall i: nat {:trigger Head(g, i)} | i < |g|
      ensures aid[Head(g, i)] == aid[i] && threshold[Head(g, i)] == threshold[i]
    {
      LayerTestPerGroup(tests, g, x, y, i);
      assert (aid[Head(g, i)], threshold[Head(g, i)]) == LayerTest(tests, g, x, y, Head(g, i));
      assert (aid[i], threshold[i]) == LayerTest(tests, g, x, y, i);
    }
  }

  /** TrainInternalNodes up to the tests' results. */
  method LayerTests(tests: Tests, g: seq<int>, x: seq<seq<int>>, y: seq<int>)
    returns (aid: seq<int>, threshold: seq<int>, b: seq<int>)
    requires Sized(tests) && Grouped(g) && Bits(y) && |y| == |g| && Rectangular(x, |g|)
    ensures |aid| == |threshold| == |b| == |g| && Bits(b)
    ensures Selects(tests, g, x, y, aid, threshold)
    ensures forall i: nat :: i < |g| ==> (b[i] == 1 <==> 2 * At(Column(x, i), aid[i]) < threshold[i])
  {
    hide AllSame, Selected, GroupSame;
    var aids, thresholds := GlobalTestSelection(tests, g, x, y);
    var same := GroupSame(g, y);
    aid := seq(|g|, i requires 0 <= i < |g| => if same[i] == 1 then 0 else aids[i]);
    threshold := seq(|g|, i requires 0 <= i < |g| => if same[i] == 1 then MIN_VALUE else thresholds[i]);
    forall i: nat | i < |g| ensures (aid[i], threshold[i]) == LayerTest(tests, g, x, y, i) {
      GroupSameIs(g, y, i);
    }
    b := seq(|g|, i requires 0 <= i < |g| => if 2 * At(Column(x, i), aid[i]) < threshold[i] then 1 else 0);
  }

  // ----- Cropped layers -----

  function CropLayer(k: nat, layer: Layer): Layer {
    Layer(Crop(k, layer.nid), Crop(k, layer.aid), Crop(k, layer.threshold))
  }

  function CropLayers(layers: seq<Layer>): (r: seq<Layer>)
    requires WellFormed(layers)
    ensures |r| == |layers| && WellFormed(r) && forall k :: 0 <= k < |r| ==> r[k] == CropLayer(k, layers[k])
  {
    seq(|layers|, k requires 0 <= k < |layers| => CropLayer(k, layers[k]))
  }

  /** Every sample's walk through the layers made so far ends at its node number. */
  ghost predicate Walks(eq: Equal, layers: seq<Layer>, x: seq<seq<int>>, nid: seq<int>) {
    WellFormed(layers) && Rectangular(x, |nid|)
    && forall i: nat {:trigger nid[i]} :: i < |nid| ==> Walk(eq, CropLayers(layers), |layers|, Column(x, i)) == nid[i]
  }

  /** Sorting all columns by the bit. */
  function SortColumns(b: seq<int>, x: seq<seq<int>>): (r: seq<seq<int>>)
    requires Bits(b) && Rectangular(x, |b|)
    ensures Rectangular(r, |b|) && |r| == |x|
  {
    DestPermutes(b);
    seq(|x|, j requires 0 <= j < |x| => Apply(DestComp(b), x[j]))
  }

  lemma SortedColumn(b: seq<int>, x: seq<seq<int>>, q: nat)
    requires Bits(b) && Rectangular(x, |b|) && q < |b|
    ensures Permutes(DestComp(b)) && Column(SortColumns(b, x), q) == Column(x, Source(DestComp(b), q))
  {
    DestPermutes(b);
    forall j | 0 <= j < |x| ensures SortColumns(b, x)[j][q] == x[j][Source(DestComp(b), q)] {
      FromSource(DestComp(b), x[j], q);
    }
  }

  function PackedLayer(g: seq<int>, nid: seq<int>, aid: seq<int>, threshold: seq<int>): (l: Layer)
    requires Bits(g) && |nid| == |aid| == |threshold| == |g|
    ensures |l.nid| == |l.aid| == |l.threshold| == |g|
  {
    Layer(FormatColumn(g, nid), FormatColumn(g, aid), FormatColumn(g, threshold))
  }

  /** What one layer computes, and that its tests are the same all over a group. */
  ghost predicate Tested(g: seq<int>, x: seq<seq<int>>, aid: seq<int>, threshold: seq<int>, b: seq<int>)
    requires Grouped(g) && Rectangular(x, |g|)
  {
    && |aid| == |threshold| == |b| == |g| && Bits(b)
    && (forall i: nat {:trigger Head(g, i)} :: i < |g| ==>
        aid[Head(g, i)] == aid[i] && threshold[Head(g, i)] == threshold[i])
    && (forall i: nat {:trigger b[i]} :: i < |g| ==> (b[i] == 1 <==> 2 * At(Column(x, i), aid[i]) < threshold[i]))
  }

  /** From its node a sample walks on by its own test bit. */
  lemma WalksOn(eq: Equal, layers: seq<Layer>, g: seq<int>, nid: seq<int>, x: seq<seq<int>>, aid: seq<int>,
                threshold: seq<int>, b: seq<int>, i: nat)
    requires Compares(eq) && Layout(g, nid, |layers|) && Walks(eq, layers, x, nid) && Rectangular(x, |g|)
    requires Tested(g, x, aid, threshold, b) && i < |g|
    ensures WellFormed(layers + [PackedLayer(g, nid, aid, threshold)])
    ensures Walk(eq, CropLayers(layers + [PackedLayer(g, nid, aid, threshold)]), |layers| + 1, Column(x, i)) ==
            NextNid(nid, b, |layers|)[i]
  {
    hide FormatColumn, Head, Pick, Matches, Pow2, Walk, CropLayers;
    var layer, k, data := PackedLayer(g, nid, aid, threshold), |layers|, Column(x, i);
    CropOneMore(layers, layer);
    assert Walk(eq, CropLayers(layers), k, data) == nid[i];
    PicksGroup(eq, g, nid, k, aid, i);
    PicksGroup(eq, g, nid, k, threshold, i);
    assert aid[Head(g, i)] == aid[i] && threshold[Head(g, i)] == threshold[i];
    WalkStep(eq, CropLayers(layers), CropLayer(k, layer), data, nid[i], aid[i], threshold[i]);
    assert b[i] == 1 <==> 2 * At(data, aid[i]) < threshold[i];
    assert Pow2(k) * 0 == 0 && Pow2(k) * 1 == Pow2(k);
  }

  lemma CropOneMore(layers: seq<Layer>, layer: Layer)
    requires WellFormed(layers) && |layer.nid| == |layer.aid| == |layer.threshold|
    ensures WellFormed(layers + [layer]) && CropLayers(layers + [layer]) ==
      CropLayers(layers) + [CropLayer(|layers|, layer)]
  {
  }

  lemma WalkStep(eq: Equal, layers: seq<Layer>, layer: Layer, data: seq<int>, index: int, aid: int, threshold: int)
    requires WellFormed(layers) && WellFormed(layers + [layer]) && |layer.nid| == |layer.aid| == |layer.threshold|
    requires Walk(eq, layers, |layers|, data) == index
    requires Pick(Matches(eq, layer.nid, index, |layers|), layer.aid) == aid
    requires Pick(Matches(eq, layer.nid, index, |layers|), layer.threshold) == threshold
    ensures Walk(eq, layers + [layer], |layers| + 1, data) ==
            index + if 2 * At(data, aid) < threshold then Pow2(|layers|) else 0
  {
    hide Pick, Matches, Pow2;
    WalkOfPrefix(eq, layers, layer, |layers|, data);
    assert (layers + [layer])[|layers|] == layer;
  }

  /** After sorting, every sample's walk still ends at its number. */
  lemma WalksKept(eq: Equal, layers: seq<Layer>, g: seq<int>, nid: seq<int>, x: seq<seq<int>>, aid: seq<int>,
                  threshold: seq<int>, b: seq<int>)
    requires Compares(eq) && Layout(g, nid, |layers|) && Walks(eq, layers, x, nid) && Rectangular(x, |g|)
    requires Tested(g, x, aid, threshold, b)
    ensures Permutes(DestComp(b))
    ensures Walks(eq, layers + [PackedLayer(g, nid, aid, threshold)], SortColumns(b, x),
                  Apply(DestComp(b), NextNid(nid, b, |layers|)))
  {
    hide DestComp, Walk, CropLayers, SortColumns, Source, FormatColumn, NextNid, Crop;
    DestPermutes(b);
    var nid' := Apply(DestComp(b), NextNid(nid, b, |layers|));
    var all := layers + [PackedLayer(g, nid, aid, threshold)];
    forall q: nat {:trigger nid'[q]} | q < |nid'|
      ensures Walk(eq, CropLayers(all), |layers| + 1, Column(SortColumns(b, x), q)) == nid'[q]
    {
      FromSource(DestComp(b), NextNid(nid, b, |layers|), q);
      SortedColumn(b, x, q);
      WalksOn(eq, layers, g, nid, x, aid, threshold, b, Source(DestComp(b), q));
    }
  }

  /** The samples are those of the training data in another order. */
  ghost predicate Reordered(origin: seq<int>, x0: seq<seq<int>>, y0: seq<int>, x: seq<seq<int>>, y: seq<int>) {
    && Permutes(origin) && |origin| == |y0| == |y| && Rectangular(x0, |y0|) && Rectangular(x, |y0|)
    && forall i: nat {:trigger origin[i]} :: i < |y0| ==> Column(x, i) == Column(x0, origin[i]) && y[i] == y0[origin[i]]
  }

  ghost function NextOrigin(origin: seq<int>, b: seq<int>): (r: seq<int>)
    requires Bits(b) && |origin| == |b|
    ensures |r| == |b|
  {
    DestPermutes(b);
    seq(|b|, q requires 0 <= q < |b| => origin[Source(DestComp(b), q)])
  }

  lemma ReorderedKept(origin: seq<int>, x0: seq<seq<int>>, y0: seq<int>, x: seq<seq<int>>, y: seq<int>, b: seq<int>)
    requires Reordered(origin, x0, y0, x, y) && Bits(b) && |b| == |y|
    ensures Permutes(DestComp(b))
    ensures Reordered(NextOrigin(origin, b), x0, y0, SortColumns(b, x), Apply(DestComp(b), y))
  {
    hide DestComp, Source, SortColumns;
    DestPermutes(b);
    NextOriginPermutes(origin, b);
    var r := NextOrigin(origin, b);
    forall q: nat {:trigger r[q]} | q < |b|
      ensures Column(SortColumns(b, x), q) == Column(x0, r[q]) && Apply(DestComp(b), y)[q] == y0[r[q]]
    {
      var i := Source(DestComp(b), q);
      assert r[q] == origin[i];
      SortedColumn(b, x, q);
      FromSource(DestComp(b), y, q);
    }
  }

  lemma NextOriginPermutes(origin: seq<int>, b: seq<int>)
    requires Permutes(origin) && Bits(b) && |origin| == |b|
    ensures Permutes(NextOrigin(origin, b))
  {
    hide DestComp;
    DestPermutes(b);
    var r, c := NextOrigin(origin, b), DestComp(b);
    forall p, q | 0 <= p < q < |r| ensures r[p] != r[q] {
      var i, j := Source(c, p), Source(c, q);
      assert r[p] == origin[i] && r[q] == origin[j];
      assert i < j || j < i;
    }
  }

  // ----- The trainer -----

  class TreeTrainer {
    var g: seq<int>
    var nid: seq<int>
    var y: seq<int>
    var x: seq<seq<int>>
    var layers: seq<Layer>

    constructor (x: seq<seq<int>>, y: seq<int>)
      requires |y| > 0 && Bits(y) && Rectangular(x, |y|)
      ensures this.x == x && this.y == y && layers == []
      ensures g == [1] + seq(|y| - 1, _ => 0) && nid == seq(|y|, _ => 1)
    {
      this.x, this.y := x, y;
      layers := [];
      g := [1] + seq(|y| - 1, _ => 0);
      nid := seq(|y|, _ => 1);
    }

    ghost predicate Valid()
      reads this
    {
      Layout(g, nid, |layers|) && |y| == |g| && Bits(y) && Rectangular(x, |g|) && WellFormed(layers)
    }

    /** train_layer: tests, the packed layer, new numbers and heads, and one sort by the tests' results. */
    method TrainLayer(tests: Tests) returns (ghost aid: seq<int>, ghost threshold: seq<int>, ghost b: seq<int>)
      requires Sized(tests) && Valid()
      modifies this
      ensures Valid()
      ensures Layout(old(g), old(nid), |old(layers)|) && Rectangular(old(x), |old(g)|) &&
        Tested(old(g), old(x), aid, threshold, b)
      ensures Permutes(DestComp(b)) && nid == Apply(DestComp(b), NextNid(old(nid), b, |old(layers)|))
      ensures |old(y)| == |old(g)| && Bits(old(y)) && Selects(tests, old(g), old(x), old(y), aid, threshold)
      ensures y == Apply(DestComp(b), old(y)) && x == SortColumns(b, old(x))
      ensures layers == old(layers) + [PackedLayer(old(g), old(nid), aid, threshold)]
    {
      hide Selects, Head, End, NextHeads, NextNid, DestComp, FormatColumn;
      var k := |layers|;
      var aids, thresholds, bits := LayerTests(tests, g, x, y);
      SelectsPerGroup(tests, g, x, y, aids, thresholds);
      aid, threshold, b := aids, thresholds, bits;
      layers := layers + [PackedLayer(g, nid, aids, thresholds)];
      DestPermutes(bits);
      var c := DestComp(bits);
      var nid' := Apply(c, NextNid(nid, bits, k));
      var g' := Apply(c, NextHeads(g, bits));
      LayoutKept(g, nid, bits, k, g', nid');
      g, nid := g', nid';
      BitsKept(bits, y);
      y := Apply(c, y);
      x := SortColumns(bits, x);
    }
  }

  lemma BitsKept(b: seq<int>, y: seq<int>)
    requires Bits(b) && Bits(y) && |b| == |y|
    ensures Permutes(DestComp(b)) && Bits(Apply(DestComp(b), y))
  {
    DestPermutes(b);
    forall q: nat | q < |y| ensures Apply(DestComp(b), y)[q] == 0 || Apply(DestComp(b), y)[q] == 1 {
      FromSource(DestComp(b), y, q);
    }
  }

  // ----- The tree -----

  /** TrainLeafNodes before packing: 1 where the ones of a group outnumber its zeros. */
  function Labels(g: seq<int>, y: seq<int>): (r: seq<int>)
    requires Bits(g) && |y| == |g|
    ensures |r| == |g|
  {
    var zeros, ones := GroupSum(g, Not(y)), GroupSum(g, y);
    seq(|g|, i requires 0 <= i < |g| => if zeros[i] < ones[i] then 1 else 0)
  }

  /** get_tree */
  function TreeOf(layers: seq<Layer>, g: seq<int>, nid: seq<int>, y: seq<int>): (t: Tree)
    requires WellFormed(layers) && Bits(g) && |nid| == |y| == |g|
    ensures WellFormed(t.layers) && |t.layers| == |layers| && |t.leafNid| == |t.leafLabel|
  {
    var h := |layers|;
    Tree(CropLayers(layers), Crop(h, FormatColumn(g, nid)), Crop(h, FormatColumn(g, Labels(g, y))))
  }

  ghost predicate TreeOk(tree: Tree) {
    WellFormed(tree.layers) && |tree.leafLabel| == |tree.leafNid|
  }

  /** The leaf a sample reaches, and the label found there. */
  ghost function Leaf(eq: Equal, tree: Tree, data: seq<int>): int
    requires TreeOk(tree)
  {
    Walk(eq, tree.layers, |tree.layers|, data)
  }

  ghost function Guess(eq: Equal, tree: Tree, data: seq<int>): int
    requires TreeOk(tree)
  {
    Pick(Matches(eq, tree.leafNid, Leaf(eq, tree, data), |tree.layers|), tree.leafLabel)
  }

  /** One vote for every training sample that reaches the leaf and has the label. */
  ghost function Voters(eq: Equal, tree: Tree, x: seq<seq<int>>, y: seq<int>, leaf: int, l: int): (v: seq<int>)
    requires TreeOk(tree) && Rectangular(x, |y|)
    ensures |v| == |y|
  {
    seq(|y|, j requires 0 <= j < |y| => if Leaf(eq, tree, Column(x, j)) == leaf && y[j] == l then 1 else 0)
  }

  ghost function Votes(eq: Equal, tree: Tree, x: seq<seq<int>>, y: seq<int>, leaf: int, l: int): int
    requires TreeOk(tree) && Rectangular(x, |y|)
  {
    Total(Voters(eq, tree, x, y, leaf, l))
  }

  /** The votes do not depend on the order of the samples. */
  lemma VotesReordered(eq: Equal, tree: Tree, origin: seq<int>, x0: seq<seq<int>>, y0: seq<int>, x: seq<seq<int>>,
                       y: seq<int>, leaf: int, l: int)
    requires TreeOk(tree) && Reordered(origin, x0, y0, x, y)
    ensures Votes(eq, tree, x, y, leaf, l) == Votes(eq, tree, x0, y0, leaf, l)
  {
    hide Total, Leaf;
    var v, v0 := Voters(eq, tree, x, y, leaf, l), Voters(eq, tree, x0, y0, leaf, l);
    forall i: nat | i < |y| ensures v[i] == v0[origin[i]] {
      assert Column(x, i) == Column(x0, origin[i]) && y[i] == y0[origin[i]];
    }
    assert v == Unapply(origin, v0);
    SumPermuted(origin, v0);
  }

  /** In the final order the voters for a label are the group's samples with that label. */
  lemma VotesOfGroup(eq: Equal, tree: Tree, g: seq<int>, nid: seq<int>, k: nat, x: seq<seq<int>>, y: seq<int>, i: nat,
                     l: int, has: seq<int>)
    requires TreeOk(tree) && Layout(g, nid, k) && Rectangular(x, |g|) && |y| == |g| == |has| && i < |g|
    requires forall j: nat {:trigger nid[j]} :: j < |g| ==> Leaf(eq, tree, Column(x, j)) == nid[j]
    requires forall j :: 0 <= j < |g| ==> has[j] == if y[j] == l then 1 else 0
    ensures Votes(eq, tree, x, y, nid[i], l) == Sum(has, Head(g, i), End(g, i))
  {
    hide Sum, Leaf, Head, End, Voters;
    VotersInGroup(eq, tree, g, nid, k, x, y, i, l, has);
    TotalInside(Voters(eq, tree, x, y, nid[i], l), has, Head(g, i), End(g, i));
  }

  lemma VotersInGroup(eq: Equal, tree: Tree, g: seq<int>, nid: seq<int>, k: nat, x: seq<seq<int>>, y: seq<int>, i: nat,
                      l: int, has: seq<int>)
    requires TreeOk(tree) && Layout(g, nid, k) && Rectangular(x, |g|) && |y| == |g| == |has| && i < |g|
    requires forall j: nat {:trigger nid[j]} :: j < |g| ==> Leaf(eq, tree, Column(x, j)) == nid[j]
    requires forall j :: 0 <= j < |g| ==> has[j] == if y[j] == l then 1 else 0
    ensures forall j: nat :: j < |g| ==>
      Voters(eq, tree, x, y, nid[i], l)[j] == if Head(g, i) <= j < End(g, i) then has[j] else 0
  {
    hide Leaf, Head, End;
    forall j: nat | j < |g|
      ensures Voters(eq, tree, x, y, nid[i], l)[j] == if Head(g, i) <= j < End(g, i) then has[j] else 0
    {
      SameNode(g, nid, k, i, j);
      assert Leaf(eq, tree, Column(x, j)) == nid[j];
    }
  }

  /** For a sample in the final order: the guess is the strict majority of its leaf. */
  lemma GuessIsMajority(eq: Equal, layers: seq<Layer>, g: seq<int>, nid: seq<int>, x: seq<seq<int>>, y: seq<int>,
                        i: nat)
    requires Compares(eq) && WellFormed(layers) && Layout(g, nid, |layers|) && |y| == |g| && Bits(y) &&
      Rectangular(x, |g|)
    requires Walks(eq, layers, x, nid) && i < |g|
    ensures var tree := TreeOf(layers, g, nid, y);
            var leaf := Leaf(eq, tree, Column(x, i));
            Guess(eq, tree, Column(x, i)) == if Votes(eq, tree, x, y, leaf, 1) > Votes(eq, tree, x, y, leaf,
                                                                                       0) then 1 else 0
  {
    hide Sum, Walk, Pick, Matches, FormatColumn, Crop, Head, End, GroupSum, Votes;
    var tree, h := TreeOf(layers, g, nid, y), Head(g, i);
    LeavesAreNumbers(eq, layers, g, nid, x, y);
    assert Leaf(eq, tree, Column(x, i)) == nid[i];
    PicksGroup(eq, g, nid, |layers|, Labels(g, y), i);
    SameGroup(g, h, i);
    GroupSumIs(g, y, h);
    GroupSumIs(g, Not(y), h);
    VotesOfGroup(eq, tree, g, nid, |layers|, x, y, i, 1, y);
    VotesOfGroup(eq, tree, g, nid, |layers|, x, y, i, 0, Not(y));
  }

  lemma LeavesAreNumbers(eq: Equal, layers: seq<Layer>, g: seq<int>, nid: seq<int>, x: seq<seq<int>>, y: seq<int>)
    requires WellFormed(layers) && Layout(g, nid, |layers|) && |y| == |g| && Rectangular(x, |g|) &&
      Walks(eq, layers, x, nid)
    ensures forall j: nat {:trigger nid[j]} :: j < |g| ==> Leaf(eq, TreeOf(layers, g, nid, y), Column(x, j)) == nid[j]
  {
    hide Walk, FormatColumn;
  }

  /** All training samples get the strict majority label of the training samples that reach the same leaf. */
  ghost predicate PredictsMajority(eq: Equal, tree: Tree, x: seq<seq<int>>, y: seq<int>)
    requires TreeOk(tree) && Rectangular(x, |y|)
  {
    forall s: nat {:trigger MajorityAt(eq, tree, x, y, s)} :: s < |y| ==> MajorityAt(eq, tree, x, y, s)
  }

  ghost predicate MajorityAt(eq: Equal, tree: Tree, x: seq<seq<int>>, y: seq<int>, s: nat)
    requires TreeOk(tree) && Rectangular(x, |y|) && s < |y|
  {
    var leaf := Leaf(eq, tree, Column(x, s));
    Guess(eq, tree, Column(x, s)) == if Votes(eq, tree, x, y, leaf, 1) > Votes(eq, tree, x, y, leaf, 0) then 1 else 0
  }

  lemma MajorityInAnyOrder(eq: Equal, layers: seq<Layer>, g: seq<int>, nid: seq<int>, x: seq<seq<int>>, y: seq<int>,
                           origin: seq<int>, x0: seq<seq<int>>, y0: seq<int>)
    requires Compares(eq) && WellFormed(layers) && Layout(g, nid, |layers|) && |y| == |g| && Bits(y) &&
      Rectangular(x, |g|)
    requires Walks(eq, layers, x, nid) && Reordered(origin, x0, y0, x, y)
    ensures PredictsMajority(eq, TreeOf(layers, g, nid, y), x0, y0)
  {
    hide Votes, Guess, Leaf, Walks, CropLayers, FormatColumn, Labels;
    var tree := TreeOf(layers, g, nid, y);
    forall s: nat {:trigger MajorityAt(eq, tree, x0, y0, s)} | s < |y0| ensures MajorityAt(eq, tree, x0, y0, s) {
      var i := Onto(origin, s);
      assert Column(x, i) == Column(x0, origin[i]);
      GuessIsMajority(eq, layers, g, nid, x, y, i);
      var leaf := Leaf(eq, tree, Column(x, i));
      VotesReordered(eq, tree, origin, x0, y0, x, y, leaf, 0);
      VotesReordered(eq, tree, origin, x0, y0, x, y, leaf, 1);
    }
  }

  // ----- The tests in the tree -----

  /** The samples as layer k found them: in which order, with their heads, node numbers, attributes and labels. */
  datatype LayerData = LayerData(origin: seq<int>, g: seq<int>, nid: seq<int>, x: seq<seq<int>>, y: seq<int>)

  /** Attribute and threshold that a layer gives to a node. */
  ghost function Picks(eq: Equal, layer: Layer, k: nat, node: int): (int, int)
    requires |layer.aid| == |layer.nid| == |layer.threshold|
  {
    var bits := Matches(eq, layer.nid, node, k);
    (Pick(bits, layer.aid), Pick(bits, layer.threshold))
  }

  ghost predicate SampleTrained(eq: Equal, tests: Tests, layers: seq<Layer>, k: nat, d: LayerData, i: nat)
    requires WellFormed(layers) && k < |layers| && Sized(tests) && i < |d.g|
    requires Layout(d.g, d.nid, k) && |d.y| == |d.g| && Bits(d.y) && Rectangular(d.x, |d.g|)
  {
    && Walk(eq, layers, k, Column(d.x, i)) == d.nid[i]
    && Picks(eq, layers[k], k, d.nid[i]) == LayerTest(tests, d.g, d.x, d.y, i)
  }

  /** Layer k was trained on d: the training samples in some order, grouped by the nodes their walks reach, and every
      node's test is the one selected for its group. */
  ghost predicate LayerTrained(eq: Equal, tests: Tests, layers: seq<Layer>, k: nat, x0: seq<seq<int>>, y0: seq<int>,
                               d: LayerData)
    requires WellFormed(layers) && k < |layers| && Sized(tests) && Rectangular(x0, |y0|)
  {
    && Reordered(d.origin, x0, y0, d.x, d.y)
    && Layout(d.g, d.nid, k) && |d.y| == |d.g| && Bits(d.y) && Rectangular(d.x, |d.g|) && |d.x| == |x0|
    && forall i: nat {:trigger SampleTrained(eq, tests, layers, k, d, i)} :: i < |d.g| ==>
         SampleTrained(eq, tests, layers, k, d, i)
  }

  /** A later layer does not change that. */
  lemma LayerTrainedKept(eq: Equal, tests: Tests, layers: seq<Layer>, more: Layer, k: nat, x0: seq<seq<int>>,
                         y0: seq<int>, d: LayerData)
    requires WellFormed(layers) && k < |layers| && Sized(tests) && Rectangular(x0, |y0|)
    requires WellFormed(layers + [more]) && LayerTrained(eq, tests, layers, k, x0, y0, d)
    ensures LayerTrained(eq, tests, layers + [more], k, x0, y0, d)
  {
    hide Walk, LayerTest, Picks, Reordered, Head;
    var all := layers + [more];
    forall i: nat {:trigger SampleTrained(eq, tests, all, k, d, i)} | i < |d.g|
      ensures SampleTrained(eq, tests, all, k, d, i)
    {
      assert SampleTrained(eq, tests, layers, k, d, i);
      WalkOfPrefix(eq, layers, more, k, Column(d.x, i));
      assert (layers + [more])[k] == layers[k];
    }
  }

  /** The layer just added was trained on the samples as they were. */
  lemma NewLayerTrained(eq: Equal, tests: Tests, layers: seq<Layer>, x0: seq<seq<int>>, y0: seq<int>, d: LayerData,
                        aid: seq<int>, threshold: seq<int>)
    requires Compares(eq) && Sized(tests) && Rectangular(x0, |y0|)
    requires Reordered(d.origin, x0, y0, d.x, d.y) && Layout(d.g, d.nid, |layers|)
    requires |d.y| == |d.g| && Bits(d.y) && Rectangular(d.x, |d.g|) && |d.x| == |x0|
    requires Walks(eq, layers, d.x, d.nid) && Selects(tests, d.g, d.x, d.y, aid, threshold)
    ensures WellFormed(layers + [PackedLayer(d.g, d.nid, aid, threshold)])
    ensures LayerTrained(eq, tests, CropLayers(layers + [PackedLayer(d.g, d.nid, aid, threshold)]), |layers|, x0, y0, d)
  {
    hide Walk, LayerTest, Reordered, Pick, Matches, FormatColumn, Crop, CropLayers, Head;
    var layer, k := PackedLayer(d.g, d.nid, aid, threshold), |layers|;
    CropOneMore(layers, layer);
    var all := CropLayers(layers + [layer]);
    SelectsPerGroup(tests, d.g, d.x, d.y, aid, threshold);
    forall i: nat {:trigger SampleTrained(eq, tests, all, k, d, i)} | i < |d.g|
      ensures SampleTrained(eq, tests, all, k, d, i)
    {
      PicksGroup(eq, d.g, d.nid, k, aid, i);
      PicksGroup(eq, d.g, d.nid, k, threshold, i);
      WalkOfPrefix(eq, CropLayers(layers), CropLayer(k, layer), k, Column(d.x, i));
      assert Walk(eq, CropLayers(layers), |layers|, Column(d.x, i)) == d.nid[i];
      assert (aid[i], threshold[i]) == LayerTest(tests, d.g, d.x, d.y, i);
    }
  }

  /** All training samples that reach sample s's node at layer k have its label. */
  ghost predicate NodeAgrees(eq: Equal, layers: seq<Layer>, k: nat, x: seq<seq<int>>, y: seq<int>, s: nat)
    requires WellFormed(layers) && k <= |layers| && Rectangular(x, |y|) && s < |y|
  {
    var node := Walk(eq, layers, k, Column(x, s));
    forall t: nat {:trigger y[t]} :: t < |y| && Walk(eq, layers, k, Column(x, t)) == node ==> y[t] == y[s]
  }

  /** Attribute a with the threshold tried at p scores best of all attributes and positions at the node. */
  ghost predicate BestCandidate(tests: Tests, d: LayerData, node: int, a: int, threshold: int, p: nat)
    requires Sized(tests) && |d.nid| == |d.g| && 0 <= a < |d.x|
  {
    var best := tests(a, d.g, d.x[a], d.y);
    && p < |d.g| && d.nid[p] == node && threshold == best.1[p]
    && forall j: nat, q: nat {:trigger tests(j, d.g, d.x[j], d.y).0[q]} ::
         j < |d.x| && q < |d.g| && d.nid[q] == node ==>
         tests(j, d.g, d.x[j], d.y).0[q] <= best.0[p]
  }

  /** At layer k sample s comes to no test if the labels at its node agree, and otherwise to one with the best score. */
  ghost predicate BestAtNode(eq: Equal, tests: Tests, layers: seq<Layer>, k: nat, x: seq<seq<int>>, y: seq<int>,
                             d: LayerData, s: nat)
    requires WellFormed(layers) && k < |layers| && Sized(tests) && Rectangular(x, |y|) && s < |y|
    requires |d.nid| == |d.g| && |d.x| == |x|
  {
    var node := Walk(eq, layers, k, Column(x, s));
    var (a, threshold) := Picks(eq, layers[k], k, node);
    if NodeAgrees(eq, layers, k, x, y, s) then (a, threshold) == (0, MIN_VALUE)
    else 0 <= a < |x| && exists p: nat :: BestCandidate(tests, d, node, a, threshold, p)
  }

  /** The labels in a sample's group agree exactly if those at its node do. */
  lemma GroupAgrees(eq: Equal, tests: Tests, layers: seq<Layer>, k: nat, x0: seq<seq<int>>, y0: seq<int>, d: LayerData,
                    s: nat, i: nat)
    requires WellFormed(layers) && k < |layers| && Sized(tests) && Rectangular(x0, |y0|) && s < |y0|
    requires LayerTrained(eq, tests, layers, k, x0, y0, d) && i < |d.g| && d.origin[i] == s
    ensures AllSame(d.y, Head(d.g, i), End(d.g, i)) <==> NodeAgrees(eq, layers, k, x0, y0, s)
  {
    hide Walk, Head, End, LayerTest, Picks;
    assert SampleTrained(eq, tests, layers, k, d, i);
    forall j: nat | j < |d.g|
      ensures d.y[j] == y0[d.origin[j]] && 0 <= d.origin[j] < |y0|
      ensures d.nid[j] == Walk(eq, layers, k, Column(x0, d.origin[j]))
      ensures d.nid[i] == d.nid[j] <==> Head(d.g, i) <= j < End(d.g, i)
    {
      assert SampleTrained(eq, tests, layers, k, d, j);
      assert Column(d.x, j) == Column(x0, d.origin[j]);
      SameNode(d.g, d.nid, k, i, j);
    }
    if NodeAgrees(eq, layers, k, x0, y0, s) {
      forall p, q | Head(d.g, i) <= p < q < End(d.g, i) ensures d.y[p] == d.y[q] {
        assert y0[d.origin[p]] == y0[s] == y0[d.origin[q]];
      }
    }
    if AllSame(d.y, Head(d.g, i), End(d.g, i)) {
      forall t: nat {:trigger y0[t]} | t < |y0| && Walk(eq, layers, k, Column(x0, t)) ==
        Walk(eq, layers, k, Column(x0, s))
        ensures y0[t] == y0[s]
      {
        var j := Onto(d.origin, t);
        assert d.nid[j] == d.nid[i];
      }
    }
  }

  /** The selected test of a group is a best candidate at its node. */
  lemma SelectedIsBest(tests: Tests, d: LayerData, k: nat, i: nat)
    requires Sized(tests) && Layout(d.g, d.nid, k) && |d.y| == |d.g| && Rectangular(d.x, |d.g|) && i < |d.g|
    ensures var c := Selected(tests, d.g, d.x, d.y, i);
            0 <= c.aid < |d.x| && exists p: nat :: BestCandidate(tests, d, d.nid[i], c.aid, c.threshold, p)
  {
    hide Head, End;
    var all := GroupTests(tests, d.g, d.x, d.y, i);
    var b := ArgMax(Scores(all), 0, |all|);
    var c := Selected(tests, d.g, d.x, d.y, i);
    var p := ArgMax(tests(b, d.g, d.x[b], d.y).0, Head(d.g, i), End(d.g, i));
    hide ArgMax;
    assert c == all[b] == GroupTest(tests, d.g, d.x, d.y, b, i);
    forall q: nat | q < |d.g| ensures d.nid[q] == d.nid[i] <==> Head(d.g, i) <= q < End(d.g, i) {
      SameNode(d.g, d.nid, k, i, q);
    }
    forall j: nat, q: nat {:trigger tests(j, d.g, d.x[j], d.y).0[q]} | j < |d.x| && q < |d.g| && d.nid[q] == d.nid[i]
      ensures tests(j, d.g, d.x[j], d.y).0[q] <= tests(b, d.g, d.x[b], d.y).0[p]
    {
      assert all[j] == GroupTest(tests, d.g, d.x, d.y, j, i);
      assert Scores(all)[j] <= Scores(all)[b];
    }
    assert BestCandidate(tests, d, d.nid[i], c.aid, c.threshold, p);
  }

  lemma TrainedIsBest(eq: Equal, tests: Tests, layers: seq<Layer>, k: nat, x0: seq<seq<int>>, y0: seq<int>,
                      d: LayerData, s: nat)
    requires WellFormed(layers) && k < |layers| && Sized(tests) && Rectangular(x0, |y0|) && s < |y0|
    requires LayerTrained(eq, tests, layers, k, x0, y0, d)
    ensures BestAtNode(eq, tests, layers, k, x0, y0, d, s)
  {
    hide Walk, Head, End, Picks, Selected, NodeAgrees, BestCandidate, AllSame;
    var i := Onto(d.origin, s);
    assert SampleTrained(eq, tests, layers, k, d, i);
    assert Column(d.x, i) == Column(x0, d.origin[i]);
    GroupAgrees(eq, tests, layers, k, x0, y0, d, s, i);
    SelectedIsBest(tests, d, k, i);
  }

  /** Every layer was trained on the training samples, and every sample comes to a best test at its node. */
  ghost predicate TestsAreBest(eq: Equal, tests: Tests, layers: seq<Layer>, x: seq<seq<int>>, y: seq<int>,
                               history: seq<LayerData>)
    requires WellFormed(layers) && Sized(tests) && Rectangular(x, |y|)
  {
    |history| == |layers|
    && forall k: nat {:trigger history[k]} :: k < |layers| ==>
         LayerTrained(eq, tests, layers, k, x, y, history[k])
         && forall s: nat :: s < |y| ==> BestAtNode(eq, tests, layers, k, x, y, history[k], s)
  }

  ghost predicate AllTrained(eq: Equal, tests: Tests, layers: seq<Layer>, x: seq<seq<int>>, y: seq<int>,
                             history: seq<LayerData>)
    requires WellFormed(layers) && Sized(tests) && Rectangular(x, |y|)
  {
    |history| == |layers|
    && forall k: nat {:trigger history[k]} :: k < |layers| ==> LayerTrained(eq, tests, layers, k, x, y, history[k])
  }

  lemma AllTrainedGrows(eq: Equal, tests: Tests, layers: seq<Layer>, x0: seq<seq<int>>, y0: seq<int>, d: LayerData,
                        aid: seq<int>, threshold: seq<int>, history: seq<LayerData>)
    requires Compares(eq) && Sized(tests) && Rectangular(x0, |y0|)
    requires Reordered(d.origin, x0, y0, d.x, d.y) && Layout(d.g, d.nid, |layers|)
    requires |d.y| == |d.g| && Bits(d.y) && Rectangular(d.x, |d.g|) && |d.x| == |x0|
    requires Walks(eq, layers, d.x, d.nid) && |aid| == |threshold| == |d.g|
    requires Selects(tests, d.g, d.x, d.y, aid, threshold)
    requires AllTrained(eq, tests, CropLayers(layers), x0, y0, history)
    ensures WellFormed(layers + [PackedLayer(d.g, d.nid, aid, threshold)])
    ensures AllTrained(eq, tests, CropLayers(layers + [PackedLayer(d.g, d.nid, aid, threshold)]), x0, y0, history + [d])
  {
    hide LayerTrained, Reordered, Selects;
    var layer := PackedLayer(d.g, d.nid, aid, threshold);
    NewLayerTrained(eq, tests, layers, x0, y0, d, aid, threshold);
    CropOneMore(layers, layer);
    var cropped, more := CropLayers(layers), CropLayer(|layers|, layer);
    hide CropLayers;
    var all := history + [d];
    forall k: nat {:trigger all[k]} | k < |all| ensures LayerTrained(eq, tests, cropped + [more], k, x0, y0, all[k]) {
      if k < |history| {
        assert all[k] == history[k];
        LayerTrainedKept(eq, tests, cropped, more, k, x0, y0, history[k]);
      }
    }
  }

  lemma AllTrainedIsBest(eq: Equal, tests: Tests, layers: seq<Layer>, x: seq<seq<int>>, y: seq<int>,
                         history: seq<LayerData>)
    requires WellFormed(layers) && Sized(tests) && Rectangular(x, |y|) && AllTrained(eq, tests, layers, x, y, history)
    ensures TestsAreBest(eq, tests, layers, x, y, history)
  {
    hide BestAtNode;
    forall k: nat, s: nat | k < |layers| && s < |y| ensures BestAtNode(eq, tests, layers, k, x, y, history[k], s) {
      TrainedIsBest(eq, tests, layers, k, x, y, history[k], s);
    }
  }

  /** train: for every comparison that is right on k-bit differences, the tree predicts the majority of every leaf, and
      every test in it is the best for the training samples that reach it. */
  method Train(x: seq<seq<int>>, y: seq<int>, h: nat, tests: Tests, ghost eq: Equal)
    returns (tree: Tree, ghost history: seq<LayerData>)
    requires Sized(tests) && Compares(eq) && |y| > 0 && Bits(y) && Rectangular(x, |y|)
    ensures TreeOk(tree) && |tree.layers| == h
    ensures PredictsMajority(eq, tree, x, y)
    ensures TestsAreBest(eq, tests, tree.layers, x, y, history)
  {
    var trainer := new TreeTrainer(x, y);
    ghost var origin := seq(|y|, i => i);
    TrainingStarts(eq, trainer.g, trainer.nid, x, y);
    history := [];
    for k := 0 to h
      invariant |trainer.layers| == k && trainer.Valid() && |trainer.x| == |x|
      invariant Walks(eq, trainer.layers, trainer.x, trainer.nid) && Reordered(origin, x, y, trainer.x, trainer.y)
      invariant AllTrained(eq, tests, CropLayers(trainer.layers), x, y, history)
    {
      hide Walks, Reordered, Tested, PackedLayer, SortColumns, NextNid, DestComp, AllTrained, Selects;
      ghost var layers, g, nid, xs, ys := trainer.layers, trainer.g, trainer.nid, trainer.x, trainer.y;
      ghost var aid, threshold, b := trainer.TrainLayer(tests);
      ghost var d := LayerData(origin, g, nid, xs, ys);
      AllTrainedGrows(eq, tests, layers, x, y, d, aid, threshold, history);
      WalksKept(eq, layers, g, nid, xs, aid, threshold, b);
      ReorderedKept(origin, x, y, xs, ys, b);
      history := history + [d];
      origin := NextOrigin(origin, b);
    }
    tree := TreeOf(trainer.layers, trainer.g, trainer.nid, trainer.y);
    MajorityInAnyOrder(eq, trainer.layers, trainer.g, trainer.nid, trainer.x, trainer.y, origin, x, y);
    AllTrainedIsBest(eq, tests, tree.layers, x, y, history);
  }

  lemma TrainingStarts(eq: Equal, g: seq<int>, nid: seq<int>, x: seq<seq<int>>, y: seq<int>)
    requires |y| > 0 && Bits(y) && Rectangular(x, |y|) && g == [1] + seq(|y| - 1, _ => 0) && nid == seq(|y|, _ => 1)
    ensures Layout(g, nid, 0) && Walks(eq, [], x, nid) && Reordered(seq(|y|, i => i), x, y, x, y)
  {
  }
}
