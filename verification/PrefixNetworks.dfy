/** Parallel prefix networks: logarithmic rounds that give the same values as a sequential scan. */
module PrefixNetworks {
  import opened Powers

  // ----- Sequential folds -----

  ghost predicate AssociatesAt<V(!new)>(op: (V, V) -> V, a: V, b: V, c: V) {
    op(op(a, b), c) == op(a, op(b, c))
  }

  ghost predicate Associative<V(!new)>(op: (V, V) -> V) {
    forall a: V, b: V, c: V {:trigger AssociatesAt(op, a, b, c)} :: AssociatesAt(op, a, b, c)
  }

  /** The entries from lo up to but not including hi, combined from left to right. */
  ghost function Fold<V(!new)>(op: (V, V) -> V, s: seq<V>, lo: nat, hi: nat): V
    requires lo < hi <= |s|
    decreases hi
  {
    if hi == lo + 1 then s[lo] else op(Fold(op, s, lo, hi - 1), s[hi - 1])
  }

  lemma {:induction false} FoldSplits<V(!new)>(op: (V, V) -> V, s: seq<V>, lo: nat, mid: nat, hi: nat)
    requires Associative(op) && lo < mid < hi <= |s|
    ensures Fold(op, s, lo, hi) == op(Fold(op, s, lo, mid), Fold(op, s, mid, hi))
    decreases hi
  {
    if mid + 1 < hi {
      FoldSplits(op, s, lo, mid, hi - 1);
      assert AssociatesAt(op, Fold(op, s, lo, mid), Fold(op, s, mid, hi - 1), s[hi - 1]);
    }
  }

  /** What every prefix computation returns. */
  ghost function Prefixes<V(!new)>(op: (V, V) -> V, s: seq<V>): (r: seq<V>)
    ensures |r| == |s| && forall i :: 0 <= i < |s| ==> r[i] == Fold(op, s, 0, i + 1)
  {
    seq(|s|, i requires 0 <= i < |s| => Fold(op, s, 0, i + 1))
  }

  // ----- PreOpN -----

  method PreOpN<V(!new)>(op: (V, V) -> V, items: seq<V>) returns (output: seq<V>)
    requires |items| > 0
    ensures output == Prefixes(op, items)
  {
    output := [items[0]];
    for i := 1 to |items|
      invariant output == Prefixes(op, items)[..i]
    {
      output := output + [op(output[i - 1], items[i])];
    }
  }

  // ----- PreOpL2 -----

  lemma {:induction false} PairFold<V(!new)>(op: (V, V) -> V, s: seq<V>, u: seq<V>, i: nat)
    requires Associative(op) && 2 * |u| <= |s| && i < |u|
    requires forall j :: 0 <= j < |u| ==> u[j] == op(s[2 * j], s[2 * j + 1])
    ensures Fold(op, u, 0, i + 1) == Fold(op, s, 0, 2 * i + 2)
  {
    if i > 0 {
      PairFold(op, s, u, i - 1);
      assert Fold(op, s, 0, 2 * i + 2) == op(op(Fold(op, s, 0, 2 * i), s[2 * i]), s[2 * i + 1]);
      assert AssociatesAt(op, Fold(op, s, 0, 2 * i), s[2 * i], s[2 * i + 1]);
    }
  }

  /** output[2 * i + 1] = v[i] */
  method FillOdd<V(!new)>(items: seq<V>, v: seq<V>, ghost wanted: seq<V>) returns (output: seq<V>)
    requires |v| == |items| / 2 && |wanted| == |items|
    requires forall i :: 0 <= i < |v| ==> v[i] == wanted[2 * i + 1]
    ensures |output| == |items|
    ensures forall q: nat :: q < |items| ==> output[q] == if q % 2 == 1 then wanted[q] else items[q]
  {
    output := items;
    for i := 0 to |v|
      invariant |output| == |items|
      invariant forall q: nat :: q < |items| ==> output[q] == if q % 2 == 1 && q < 2 * i then wanted[q] else items[q]
    {
      output := output[2 * i + 1 := v[i]];
    }
  }

  /** output[2 * i] = op(v[i - 1], items[2 * i]) */
  method FillEven<V(!new)>(op: (V, V) -> V, items: seq<V>, v: seq<V>, odd: seq<V>, ghost wanted: seq<V>)
    returns (output: seq<V>)
    requires |v| == |items| / 2 && |wanted| == |odd| == |items| > 0 && wanted[0] == items[0]
    requires forall q: nat :: q < |items| ==> odd[q] == if q % 2 == 1 then wanted[q] else items[q]
    requires forall i :: 1 <= i < (|items| + 1) / 2 ==> wanted[2 * i] == op(v[i - 1], items[2 * i])
    ensures output == wanted
  {
    output := odd;
    for i := 1 to (|items| + 1) / 2
      invariant |output| == |items|
      invariant forall q: nat :: q < |items| ==> output[q] == if q % 2 == 1 || q < 2 * i then wanted[q] else items[q]
    {
      output := output[2 * i := op(v[i - 1], items[2 * i])];
    }
  }

  method PreOpL2<V(!new)>(op: (V, V) -> V, items: seq<V>) returns (output: seq<V>)
    requires Associative(op)
    ensures output == Prefixes(op, items)
    decreases |items|
  {
    var k := |items|;
    var half := k / 2;
    if k == 0 {
      return [];
    }
    var u := seq(half, i requires 0 <= i < half => op(items[2 * i], items[2 * i + 1]));
    var v := PreOpL2(op, u);
    ghost var wanted := Prefixes(op, items);
    forall i: nat | i < half ensures v[i] == wanted[2 * i + 1] {
      PairFold(op, items, u, i);
    }
    hide Associative;
    assert forall i :: 1 <= i < (k + 1) / 2 ==> wanted[2 * i] == op(wanted[2 * (i - 1) + 1], items[2 * i]);
    output := FillOdd(items, v, wanted);
    output := FillEven(op, items, v, output, wanted);
  }

  // ----- PreOpL -----

  lemma ModLess(x: nat, m: nat)
    requires m > 0
    ensures 0 <= x % m < m && x % m <= x
  {
  }

  /** An operation that is told whether its whole result will be used. */
  type FlaggedOp<!V> = (V, V, bool) -> V

  /** Position q after the round with half-blocks of width w: the upper half of a block takes in the lower one's last
      entry. */
  function StepAt<V>(op: FlaggedOp<V>, s: seq<V>, w: nat, q: nat): V
    requires w > 0 && q < |s|
  {
    ModLess(q, 2 * w);
    var r := q % (2 * w);
    if r >= w then op(s[q - r + w - 1], s[q], q >= 2 * w) else s[q]
  }

  ghost function RoundOf<V>(op: FlaggedOp<V>, s: seq<V>, w: nat): (r: seq<V>)
    requires w > 0
    ensures |r| == |s| && forall q: nat {:trigger r[q]} :: q < |s| ==> r[q] == StepAt(op, s, w, q)
  {
    seq(|s|, q requires 0 <= q < |s| => StepAt(op, s, w, q))
  }

  ghost function Rounds<V>(op: FlaggedOp<V>, s: seq<V>, n: nat): (r: seq<V>)
    ensures |r| == |s|
  {
    if n == 0 then s else RoundOf(op, Rounds(op, s, n - 1), Pow2(n - 1))
  }

  /** Where a position is in its block. */
  lemma InBlock(start: nat, j: nat, w: nat, q: nat)
    requires w > 0 && start == j * (2 * w) && start <= q < start + 2 * w
    ensures q % (2 * w) == q - start
  {
    ModUnique(q, j, 2 * w, q - start);
  }

  lemma ModUnique(x: int, d: int, m: int, r: int)
    requires m > 0 && x == d * m + r && 0 <= r < m
    ensures x % m == r && x / m == d
  {
    var e := x / m - d;
    assert e * m == r - x % m;
    assert e >= 1 ==> e * m >= m;
    assert e <= -1 ==> e * m <= -m;
  }

  /** The inner loop: one block that starts at `start`. */
  method OneBlock<V>(op: FlaggedOp<V>, ghost s: seq<V>, before: seq<V>, w: nat, start: nat, ghost j: nat)
    returns (output: seq<V>)
    requires w > 0 && start == j * (2 * w) && |before| == |s|
    requires forall q: nat {:trigger before[q]} :: q < |s| ==>
      before[q] == if q < start then StepAt(op, s, w, q) else s[q]
    ensures |output| == |s|
    ensures forall q: nat {:trigger output[q]} :: q < |s| ==>
      output[q] == if q < start + 2 * w then StepAt(op, s, w, q) else s[q]
  {
    output := before;
    var y := w + start - 1;
    forall q: nat | start <= q <= y && q < |s| ensures StepAt(op, s, w, q) == s[q] {
      InBlock(start, j, w, q);
    }
    for z := 1 to w + 1
      invariant |output| == |s|
      invariant forall q: nat {:trigger output[q]} :: q < |s| ==>
        output[q] == if q < y + z then StepAt(op, s, w, q) else s[q]
    {
      if y + z < |output| {
        InBlock(start, j, w, y + z);
        FirstBlock(start, j, w);
        output := output[y + z := op(output[y], output[y + z], start != 0)];
      }
    }
  }

  lemma FirstBlock(start: nat, j: nat, w: nat)
    requires w > 0 && start == j * (2 * w)
    ensures start == 0 || start >= 2 * w
  {
    if j > 0 {
      assert (j - 1) * (2 * w) >= 0;
    }
  }

  /** One round over all blocks. */
  method OneRound<V>(op: FlaggedOp<V>, s: seq<V>, w: nat, blocks: nat) returns (output: seq<V>)
    requires w > 0 && |s| <= blocks * (2 * w)
    ensures output == RoundOf(op, s, w)
  {
    hide StepAt;
    output := s;
    var start := 0;
    for j := 0 to blocks
      invariant start == j * (2 * w) && |output| == |s|
      invariant forall q: nat {:trigger output[q]} :: q < |s| ==>
        output[q] == if q < start then StepAt(op, s, w, q) else s[q]
    {
      output := OneBlock(op, s, output, w, start, j);
      start := start + 2 * w;
    }
  }

  /** The rounds of the network. */
  method PreOpL<V>(op: FlaggedOp<V>, items: seq<V>) returns (output: seq<V>)
    requires |items| > 0
    ensures output == Rounds(op, items, CeilLog2(|items|))
  {
    var logk := CeilLog2(|items|);
    var kmax := Pow2(logk);
    output := items;
    for i := 0 to logk
      invariant output == Rounds(op, items, i)
    {
      BlocksCover(logk, i);
      output := OneRound(op, output, Pow2(i), kmax / Pow2(i + 1));
    }
  }

  lemma {:induction false} BlocksCover(logk: nat, i: nat)
    requires i < logk
    ensures Pow2(logk) / Pow2(i + 1) * (2 * Pow2(i)) == Pow2(logk)
    decreases logk
  {
    Pow2Splits(i + 1, logk - i - 1);
    ModUnique(Pow2(logk), Pow2(logk - i - 1), Pow2(i + 1), 0);
  }

  // ----- What the network computes -----

  /** Position q stands for the fold over its block of width w; the last argument says that the block begins at 0. */
  ghost predicate Stands<T, V(!new)>(rel: (T, V, bool) -> bool, op: (V, V) -> V, vals: seq<V>, out: seq<T>, w: nat)
    requires w > 0
  {
    |out| == |vals| && forall q: nat {:trigger StandsAt(rel, op, vals, out, w, q)} :: q < |out| ==>
      StandsAt(rel, op, vals, out, w, q)
  }

  ghost predicate StandsAt<T, V(!new)>(rel: (T, V, bool) -> bool, op: (V, V) -> V, vals: seq<V>, out: seq<T>, w: nat,
                                       q: nat)
    requires w > 0 && q < |out| == |vals|
  {
    rel(out[q], Fold(op, vals, q - q % w, q + 1), q < w)
  }

  /** The flagged operation computes the operation, and all of it if the left block does not begin at 0. */
  ghost predicate Simulates<T(!new), V(!new)>(flagged: FlaggedOp<T>, op: (V, V) -> V, rel: (T, V, bool) -> bool) {
    forall a: T, b: T, va: V, vb: V, whole: bool {:trigger SimulatesAt(flagged, op, rel, a, b, va, vb, whole)} ::
      SimulatesAt(flagged, op, rel, a, b, va, vb, whole)
  }

  ghost predicate SimulatesAt<T, V>(flagged: FlaggedOp<T>, op: (V, V) -> V, rel: (T, V, bool) -> bool, a: T, b: T,
                                    va: V, vb: V, whole: bool) {
    rel(a, va, whole) && rel(b, vb, false) ==> rel(flagged(a, b, !whole), op(va, vb), whole)
  }

  /** Blocks of twice the width. */
  lemma HalfBlock(q: nat, w: nat)
    requires w > 0
    ensures var r := q % (2 * w);
            && 0 <= r <= q && (r < w ==> q % w == r) && (r >= w ==> q % w == r - w && (q - r + w - 1) % w == w - 1)
            && (r == q <==> q < 2 * w)
  {
    var r, d := q % (2 * w), q / (2 * w);
    assert q == d * (2 * w) + r;
    if r < w {
      assert q == (2 * d) * w + r;
      ModUnique(q, 2 * d, w, r);
    } else {
      assert q == (2 * d + 1) * w + (r - w);
      ModUnique(q, 2 * d + 1, w, r - w);
      assert q - r + w - 1 == (2 * d) * w + (w - 1);
      ModUnique(q - r + w - 1, 2 * d, w, w - 1);
    }
    if q < 2 * w {
      ModUnique(q, 0, 2 * w, q);
    }
  }

  lemma StepStands<T(!new), V(!new)>(flagged: FlaggedOp<T>, op: (V, V) -> V, rel: (T, V, bool) -> bool, vals: seq<V>,
                                     out: seq<T>, w: nat, q: nat)
    requires Associative(op) && Simulates(flagged, op, rel) && w > 0 && Stands(rel, op, vals, out, w) && q < |out|
    ensures rel(StepAt(flagged, out, w, q), Fold(op, vals, q - q % (2 * w), q + 1), q < 2 * w)
  {
    hide Fold, Associative, Simulates;
    var r := q % (2 * w);
    HalfBlock(q, w);
    assert StandsAt(rel, op, vals, out, w, q);
    if r >= w {
      var y := q - r + w - 1;
      assert StandsAt(rel, op, vals, out, w, y);
      FoldSplits(op, vals, q - r, y + 1, q + 1);
      var va, vb := Fold(op, vals, q - r, y + 1), Fold(op, vals, y + 1, q + 1);
      Simulated(flagged, op, rel, out[y], out[q], va, vb, q < 2 * w);
    }
  }

  lemma Simulated<T(!new), V(!new)>(flagged: FlaggedOp<T>, op: (V, V) -> V, rel: (T, V, bool) -> bool, a: T, b: T,
                                    va: V, vb: V, whole: bool)
    requires Simulates(flagged, op, rel) && rel(a, va, whole) && rel(b, vb, false)
    ensures rel(flagged(a, b, !whole), op(va, vb), whole)
  {
    assert SimulatesAt(flagged, op, rel, a, b, va, vb, whole);
  }

  lemma {:induction false} RoundsStand<T(!new), V(!new)>(flagged: FlaggedOp<T>, op: (V, V) -> V,
                                                         rel: (T, V, bool) -> bool, vals: seq<V>, items: seq<T>, n: nat)
    requires Associative(op) && Simulates(flagged, op, rel) && |items| == |vals|
    requires forall q: nat :: q < |items| ==> rel(items[q], vals[q], q == 0)
    ensures Stands(rel, op, vals, Rounds(flagged, items, n), Pow2(n))
  {
    var out := Rounds(flagged, items, n);
    if n == 0 {
      forall q: nat | q < |out| ensures StandsAt(rel, op, vals, out, Pow2(0), q) {
        assert q % 1 == 0;
      }
    } else {
      RoundsStand(flagged, op, rel, vals, items, n - 1);
      RoundStands(flagged, op, rel, vals, Rounds(flagged, items, n - 1), Pow2(n - 1));
    }
  }

  lemma RoundStands<T(!new), V(!new)>(flagged: FlaggedOp<T>, op: (V, V) -> V, rel: (T, V, bool) -> bool, vals: seq<V>,
                                      before: seq<T>, w: nat)
    requires Associative(op) && Simulates(flagged, op, rel) && w > 0 && Stands(rel, op, vals, before, w)
    ensures Stands(rel, op, vals, RoundOf(flagged, before, w), 2 * w)
  {
    var out := RoundOf(flagged, before, w);
    forall q: nat | q < |out| ensures StandsAt(rel, op, vals, out, 2 * w, q) {
      StepStands(flagged, op, rel, vals, before, w, q);
      assert out[q] == StepAt(flagged, before, w, q);
    }
  }

  /** After all rounds every position stands for its prefix. */
  lemma NetworkStands<T(!new), V(!new)>(flagged: FlaggedOp<T>, op: (V, V) -> V, rel: (T, V, bool) -> bool, vals: seq<V>,
                                        items: seq<T>, q: nat)
    requires Associative(op) && Simulates(flagged, op, rel) && |items| == |vals| && q < |items|
    requires forall i: nat :: i < |items| ==> rel(items[i], vals[i], i == 0)
    ensures rel(Rounds(flagged, items, CeilLog2(|items|))[q], Prefixes(op, vals)[q], true)
  {
    var n := CeilLog2(|items|);
    RoundsStand(flagged, op, rel, vals, items, n);
    assert StandsAt(rel, op, vals, Rounds(flagged, items, n), Pow2(n), q);
    assert q % Pow2(n) == q by {
      ModUnique(q, 0, Pow2(n), q);
    }
  }

  /** For an operation that ignores the flag, the network is the sequential scan. */
  lemma NetworkIsScan<V(!new)>(op: (V, V) -> V, items: seq<V>)
    requires Associative(op) && |items| > 0
    ensures Rounds((a, b, _) => op(a, b), items, CeilLog2(|items|)) == Prefixes(op, items)
  {
    var flagged: FlaggedOp<V> := (a, b, _) => op(a, b);
    var rel: (V, V, bool) -> bool := (a, b, _) => a == b;
    forall a: V, b: V, va: V, vb: V, whole: bool {:trigger SimulatesAt(flagged, op, rel, a, b, va, vb, whole)}
      ensures SimulatesAt(flagged, op, rel, a, b, va, vb, whole)
    {
    }
    forall q: nat | q < |items| ensures Rounds(flagged, items, CeilLog2(|items|))[q] == Prefixes(op, items)[q] {
      NetworkStands(flagged, op, rel, items, items, q);
    }
  }

  /** The three networks agree. */
  method AllAgree<V(!new)>(op: (V, V) -> V, items: seq<V>) returns (naive: seq<V>, log1: seq<V>, log2: seq<V>)
    requires Associative(op) && |items| > 0
    ensures naive == log1 == log2 == Prefixes(op, items)
  {
    naive := PreOpN(op, items);
    log1 := PreOpL((a, b, _) => op(a, b), items);
    NetworkIsScan(op, items);
    log2 := PreOpL2(op, items);
  }
}
