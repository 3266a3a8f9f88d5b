/** Vectors of integers and their prefix sums. */
module Vectors {
  /** The sum of the entries from lo up to but not including hi. */
  function Sum(x: seq<int>, lo: nat, hi: nat): int
    requires lo <= hi <= |x|
    decreases hi
  {
    if lo == hi then 0 else Sum(x, lo, hi - 1) + x[hi - 1]
  }

  lemma {:induction false} SumSplits(x: seq<int>, lo: nat, mid: nat, hi: nat)
    requires lo <= mid <= hi <= |x|
    ensures Sum(x, lo, hi) == Sum(x, lo, mid) + Sum(x, mid, hi)
    decreases hi
  {
    if mid < hi {
      SumSplits(x, lo, mid, hi - 1);
    }
  }

  /** Equal entries have equal sums. */
  lemma {:induction false} SumDepends(x: seq<int>, y: seq<int>, lo: nat, hi: nat, shift: int)
    requires lo <= hi <= |x| && 0 <= lo + shift && hi + shift <= |y|
    requires forall i :: lo <= i < hi ==> x[i] == y[i + shift]
    ensures Sum(x, lo, hi) == Sum(y, lo + shift, hi + shift)
    decreases hi
  {
    if lo < hi {
      SumDepends(x, y, lo, hi - 1, shift);
    }
  }

  /** Only one entry of the range is not 0. */
  lemma {:induction false} SumSingle(x: seq<int>, lo: nat, at: nat, hi: nat)
    requires lo <= at < hi <= |x| && forall i :: lo <= i < hi && i != at ==> x[i] == 0
    ensures Sum(x, lo, hi) == x[at]
    decreases hi
  {
    if at < hi - 1 {
      SumSingle(x, lo, at, hi - 1);
    } else {
      SumZero(x, lo, hi - 1);
    }
  }

  lemma {:induction false} SumZero(x: seq<int>, lo: nat, hi: nat)
    requires lo <= hi <= |x| && forall i :: lo <= i < hi ==> x[i] == 0
    ensures Sum(x, lo, hi) == 0
    decreases hi
  {
    if lo < hi {
      SumZero(x, lo, hi - 1);
    }
  }

  function PrefixSum(x: seq<int>): (r: seq<int>)
    ensures |r| == |x|
  {
    seq(|x|, i requires 0 <= i < |x| => Sum(x, 0, i + 1))
  }

  function Reverse(x: seq<int>): (r: seq<int>)
    ensures |r| == |x|
  {
    seq(|x|, i requires 0 <= i < |x| => x[|x| - 1 - i])
  }

  function PrefixSumR(x: seq<int>): (r: seq<int>)
    ensures |r| == |x|
  {
    Reverse(PrefixSum(Reverse(x)))
  }

  function PrefixSumInv(x: seq<int>): (r: seq<int>)
    ensures |r| == |x|
  {
    var tmp := [0] + x;
    seq(|x|, i requires 0 <= i < |x| => tmp[i + 1] - tmp[i])
  }

  function PrefixSumRInv(x: seq<int>): (r: seq<int>)
    ensures |r| == |x|
  {
    var tmp := x + [0];
    seq(|x|, i requires 0 <= i < |x| => tmp[i] - tmp[i + 1])
  }

  /** The reverse prefix sum gives the sums of the suffixes. */
  lemma SuffixSum(x: seq<int>, i: nat)
    requires i < |x|
    ensures PrefixSumR(x)[i] == Sum(x, i, |x|)
  {
    ReversedSum(x, i);
  }

  lemma {:induction false} ReversedSum(x: seq<int>, i: nat)
    requires i <= |x|
    ensures Sum(Reverse(x), 0, |x| - i) == Sum(x, i, |x|)
    decreases |x| - i
  {
    if i < |x| {
      ReversedSum(x, i + 1);
      SumSplits(x, i, i + 1, |x|);
      assert Sum(x, i, i + 1) == Sum(x, i, i) + x[i];
    }
  }

  /** Taking differences undoes prefix sums. */
  lemma PrefixSumInverse(x: seq<int>)
    ensures PrefixSumInv(PrefixSum(x)) == x && PrefixSum(PrefixSumInv(x)) == x
    ensures PrefixSumRInv(PrefixSumR(x)) == x
  {
    var p := PrefixSum(x);
    forall i | 0 <= i < |x| ensures PrefixSumInv(p)[i] == x[i] && PrefixSumRInv(PrefixSumR(x))[i] == x[i] {
      SuffixSum(x, i);
      SumSplits(x, i, i + 1, |x|);
      assert Sum(x, i, i + 1) == Sum(x, i, i) + x[i];
      if i + 1 < |x| {
        SuffixSum(x, i + 1);
      }
    }
    forall i | 0 <= i < |x| ensures PrefixSum(PrefixSumInv(x))[i] == x[i] {
      Telescopes(x, i);
    }
  }

  lemma {:induction false} Telescopes(x: seq<int>, i: nat)
    requires i < |x|
    ensures Sum(PrefixSumInv(x), 0, i + 1) == x[i]
  {
    if i > 0 {
      Telescopes(x, i - 1);
    } else {
      assert Sum(PrefixSumInv(x), 0, 1) == Sum(PrefixSumInv(x), 0, 0) + PrefixSumInv(x)[0];
    }
  }

  function Times(x: seq<int>, y: seq<int>): (r: seq<int>)
    requires |x| == |y|
    ensures |r| == |x|
  {
    seq(|x|, i requires 0 <= i < |x| => x[i] * y[i])
  }

  predicate Bits(x: seq<int>) {
    forall i :: 0 <= i < |x| ==> x[i] == 0 || x[i] == 1
  }

  function Not(x: seq<int>): (r: seq<int>)
    ensures |r| == |x|
  {
    seq(|x|, i requires 0 <= i < |x| => 1 - x[i])
  }

  /** How many bits of the range are 1: between 0 and its length. */
  lemma {:induction false} SumOfBits(x: seq<int>, lo: nat, hi: nat)
    requires Bits(x) && lo <= hi <= |x|
    ensures 0 <= Sum(x, lo, hi) <= hi - lo
    ensures Sum(x, lo, hi) + Sum(Not(x), lo, hi) == hi - lo
    decreases hi
  {
    if lo < hi {
      SumOfBits(x, lo, hi - 1);
    }
  }
}

/** The permutation that sorts a vector of bits. */
module StablePartition {
  import opened Vectors

  /** dest_comp on the two columns 1 - b and b: where every position goes. */
  function DestComp(b: seq<int>): (c: seq<int>)
    ensures |c| == |b|
  {
    var flat := Not(b) + b;
    var sums := PrefixSum(flat);
    seq(|b|, i requires 0 <= i < |b| => flat[i] * sums[i] + flat[|b| + i] * sums[|b| + i] - 1)
  }

  predicate Permutes(c: seq<int>) {
    && (forall i :: 0 <= i < |c| ==> 0 <= c[i] < |c|)
    && (forall i, j :: 0 <= i < j < |c| ==> c[i] != c[j])
  }

  function Zeros(b: seq<int>): int {
    Sum(Not(b), 0, |b|)
  }

  /** The first column of the flattened matrix. */
  lemma FrontSum(b: seq<int>, k: nat)
    requires k <= |b|
    ensures Sum(Not(b) + b, 0, k) == Sum(Not(b), 0, k)
  {
    hide Sum;
    SumDepends(Not(b), Not(b) + b, 0, k, 0);
  }

  /** The second column comes after all of the first. */
  lemma BackSum(b: seq<int>, k: nat)
    requires k <= |b|
    ensures Sum(Not(b) + b, 0, |b| + k) == Zeros(b) + Sum(b, 0, k)
  {
    hide Sum;
    FrontSum(b, |b|);
    SumDepends(b, Not(b) + b, 0, k, |b|);
    SumSplits(Not(b) + b, 0, |b|, |b| + k);
  }

  /** The zeros keep their order in front, the ones follow in their order. */
  lemma DestIs(b: seq<int>, i: nat)
    requires Bits(b) && i < |b|
    ensures DestComp(b)[i] == if b[i] == 0 then Sum(Not(b), 0, i) else Zeros(b) + Sum(b, 0, i)
  {
    DestPicks(b, i);
    FrontSum(b, i + 1);
    BackSum(b, i + 1);
    assert Sum(Not(b), 0, i + 1) == Sum(Not(b), 0, i) + Not(b)[i];
    assert Sum(b, 0, i + 1) == Sum(b, 0, i) + b[i];
  }

  /** The products pick one of the two prefix sums. */
  lemma DestPicks(b: seq<int>, i: nat)
    requires Bits(b) && i < |b|
    ensures DestComp(b)[i] == (if b[i] == 0 then Sum(Not(b) + b, 0, i + 1) else Sum(Not(b) + b, 0, |b| + i + 1)) - 1
  {
    hide Sum;
    var flat := Not(b) + b;
    assert flat[i] == 1 - b[i] && flat[|b| + i] == b[i];
    if b[i] == 0 {
      assert DestComp(b)[i] == 1 * PrefixSum(flat)[i] + 0 * PrefixSum(flat)[|b| + i] - 1;
    } else {
      assert DestComp(b)[i] == 0 * PrefixSum(flat)[i] + 1 * PrefixSum(flat)[|b| + i] - 1;
    }
  }

  /** Where two positions go. */
  lemma DestOrder(b: seq<int>, i: nat, j: nat)
    requires Bits(b) && i < j < |b|
    ensures b[i] == b[j] ==> DestComp(b)[i] < DestComp(b)[j]
    ensures b[i] < b[j] ==> DestComp(b)[i] < Zeros(b) <= DestComp(b)[j]
    ensures b[i] > b[j] ==> DestComp(b)[j] < Zeros(b) <= DestComp(b)[i]
  {
    DestIs(b, i);
    DestIs(b, j);
    DestRange(b, i);
    DestRange(b, j);
    assert Sum(Not(b), 0, i + 1) == Sum(Not(b), 0, i) + Not(b)[i];
    assert Sum(b, 0, i + 1) == Sum(b, 0, i) + b[i];
    SumSplits(Not(b), 0, i + 1, j);
    SumSplits(b, 0, i + 1, j);
    SumOfBits(b, i + 1, j);
    assert Bits(Not(b));
    SumOfBits(Not(b), i + 1, j);
  }

  lemma DestRange(b: seq<int>, i: nat)
    requires Bits(b) && i < |b|
    ensures 0 <= DestComp(b)[i] < |b|
    ensures b[i] == 0 <==> DestComp(b)[i] < Zeros(b)
    ensures 0 <= Zeros(b) <= |b|
  {
    DestIs(b, i);
    assert Bits(Not(b));
    SumOfBits(b, 0, |b|);
    SumOfBits(Not(b), 0, |b|);
    SumSplits(Not(b), 0, i + 1, |b|);
    SumSplits(b, 0, i + 1, |b|);
    SumOfBits(b, i + 1, |b|);
    SumOfBits(b, 0, i);
    SumOfBits(Not(b), 0, i);
    SumOfBits(Not(b), i + 1, |b|);
    assert Sum(Not(b), 0, i + 1) == Sum(Not(b), 0, i) + Not(b)[i];
    assert Sum(b, 0, i + 1) == Sum(b, 0, i) + b[i];
  }

  lemma DestPermutes(b: seq<int>)
    requires Bits(b)
    ensures Permutes(DestComp(b))
  {
    var c := DestComp(b);
    forall i | 0 <= i < |c| ensures 0 <= c[i] < |c| {
      DestRange(b, i);
    }
    forall i, j | 0 <= i < j < |c| ensures c[i] != c[j] {
      DestOrder(b, i, j);
    }
  }

  // ----- Moving entries along a permutation -----

  /** reveal_sort in forward direction, the first i entries moved. */
  function Placed<T>(c: seq<int>, x: seq<T>, i: nat): (r: seq<T>)
    requires Permutes(c) && |x| == |c| && i <= |c|
    ensures |r| == |x|
  {
    if i == 0 then x else Placed(c, x, i - 1)[c[i - 1] := x[i - 1]]
  }

  /** Entry i goes to position c[i]. */
  function Apply<T>(c: seq<int>, x: seq<T>): (r: seq<T>)
    requires Permutes(c) && |x| == |c|
    ensures |r| == |x|
  {
    Placed(c, x, |c|)
  }

  /** Position i takes the entry at c[i]. */
  function Unapply<T>(c: seq<int>, x: seq<T>): (r: seq<T>)
    requires Permutes(c) && |x| == |c|
    ensures |r| == |x|
  {
    seq(|x|, i requires 0 <= i < |x| => x[c[i]])
  }

  lemma {:induction false} PlacedAt<T>(c: seq<int>, x: seq<T>, k: nat, i: nat)
    requires Permutes(c) && |x| == |c| && i < k <= |c|
    ensures Placed(c, x, k)[c[i]] == x[i]
  {
    if i < k - 1 {
      PlacedAt(c, x, k - 1, i);
    }
  }

  lemma AppliedAt<T>(c: seq<int>, x: seq<T>, i: nat)
    requires Permutes(c) && |x| == |c| && i < |c|
    ensures Apply(c, x)[c[i]] == x[i]
  {
    PlacedAt(c, x, |c|, i);
  }

  /** The values of the first k entries. */
  ghost function Values(c: seq<int>, k: nat): set<int>
    requires k <= |c|
  {
    if k == 0 then {} else Values(c, k - 1) + {c[k - 1]}
  }

  lemma {:induction false} ValuesAre(c: seq<int>, k: nat, v: int)
    requires k <= |c|
    ensures v in Values(c, k) <==> exists i :: 0 <= i < k && c[i] == v
  {
    if k > 0 {
      ValuesAre(c, k - 1, v);
    }
  }

  lemma {:induction false} ValuesDistinct(c: seq<int>, k: nat)
    requires Permutes(c) && k <= |c|
    ensures |Values(c, k)| == k && Values(c, k) <= Below(|c|)
  {
    if k > 0 {
      ValuesDistinct(c, k - 1);
      ValuesAre(c, k - 1, c[k - 1]);
    }
  }

  ghost function Below(n: nat): (r: set<int>)
    ensures |r| == n && forall v :: v in r <==> 0 <= v < n
  {
    if n == 0 then {} else Below(n - 1) + {n - 1}
  }

  lemma EqualBySize(a: set<int>, b: set<int>)
    requires a <= b && |a| == |b|
    ensures a == b
  {
    assert b == a + (b - a);
    assert |b| == |a| + |b - a|;
  }

  /** Every position is reached. */
  lemma Onto(c: seq<int>, q: nat) returns (i: nat)
    requires Permutes(c) && q < |c|
    ensures i < |c| && c[i] == q
  {
    ValuesDistinct(c, |c|);
    EqualBySize(Values(c, |c|), Below(|c|));
    ValuesAre(c, |c|, q);
    i :| i < |c| && c[i] == q;
  }

  /** unapply undoes apply, and the other way round. */
  lemma ApplyInverse<T>(c: seq<int>, x: seq<T>)
    requires Permutes(c) && |x| == |c|
    ensures Unapply(c, Apply(c, x)) == x && Apply(c, Unapply(c, x)) == x
  {
    forall i | 0 <= i < |x| ensures Unapply(c, Apply(c, x))[i] == x[i] {
      AppliedAt(c, x, i);
    }
    forall q | 0 <= q < |x| ensures Apply(c, Unapply(c, x))[q] == x[q] {
      var i := Onto(c, q);
      AppliedAt(c, Unapply(c, x), i);
    }
  }
}

/** Sums do not depend on the order. */
module PermutedSums {
  import opened Vectors
  import opened StablePartition

  function Total(x: seq<int>): int {
    Sum(x, 0, |x|)
  }

  lemma TotalAppend(a: seq<int>, b: seq<int>)
    ensures Total(a + b) == Total(a) + Total(b)
  {
    hide Sum;
    SumDepends(a, a + b, 0, |a|, 0);
    SumDepends(b, a + b, 0, |b|, |a|);
    SumSplits(a + b, 0, |a|, |a| + |b|);
  }

  /** Only the entries of one range count. */
  lemma TotalInside(v: seq<int>, x: seq<int>, lo: nat, hi: nat)
    requires lo <= hi <= |v| == |x| && forall j :: 0 <= j < |v| ==> v[j] == if lo <= j < hi then x[j] else 0
    ensures Total(v) == Sum(x, lo, hi)
  {
    hide Sum;
    SumSplits(v, 0, lo, |v|);
    SumSplits(v, lo, hi, |v|);
    SumZero(v, 0, lo);
    SumZero(v, hi, |v|);
    SumDepends(v, x, lo, hi, 0);
  }

  function Without<T>(s: seq<T>, p: nat): (r: seq<T>)
    requires p < |s|
    ensures |r| == |s| - 1
    ensures forall i :: 0 <= i < |r| ==> r[i] == if i < p then s[i] else s[i + 1]
  {
    s[..p] + s[p + 1..]
  }

  lemma TotalWithout(u: seq<int>, p: nat)
    requires p < |u|
    ensures Total(u) == Total(Without(u, p)) + u[p]
  {
    hide Total;
    TotalAppend(u[..p], u[p + 1..]);
    TotalAppend(u[..p], [u[p]]);
    TotalAppend(u[..p] + [u[p]], u[p + 1..]);
    assert u == u[..p] + [u[p]] + u[p + 1..];
    TotalOne(u[p]);
  }

  lemma TotalOne(x: int)
    ensures Total([x]) == x
  {
    assert Sum([x], 0, 1) == Sum([x], 0, 0) + x;
  }

  lemma {:induction false} SumPermuted(c: seq<int>, x: seq<int>)
    requires Permutes(c) && |x| == |c|
    ensures Total(Unapply(c, x)) == Total(x)
    decreases |x|
  {
    hide Total;
    if |x| > 0 {
      var n := |x| - 1;
      var p := Onto(c, n);
      WithoutPermutes(c, x, p);
      SumPermuted(Without(c, p), x[..n]);
      TotalWithout(Unapply(c, x), p);
      TotalWithout(x, n);
      assert Without(x, n) == x[..n];
    } else {
      assert Unapply(c, x) == x;
    }
  }

  /** Leaving out the largest value leaves a permutation. */
  lemma WithoutPermutes<T>(c: seq<int>, x: seq<T>, p: nat)
    requires Permutes(c) && |x| == |c| && p < |c| && c[p] == |c| - 1
    ensures Permutes(Without(c, p)) && Without(Unapply(c, x), p) == Unapply(Without(c, p), x[..|c| - 1])
  {
    assert forall i :: 0 <= i < |c| && i != p ==> c[i] != c[p];
  }
}

/** Oblivious operations on groups: `g` is 1 at the first position of every group. */
module GroupOps {
  import opened Vectors
  import opened StablePartition

  ghost predicate Grouped(g: seq<int>) {
    Bits(g) && |g| > 0 && g[0] == 1
  }

  /** The first position of i's group. */
  ghost function Head(g: seq<int>, i: nat): (h: nat)
    requires Grouped(g) && i < |g|
    ensures h <= i && g[h] == 1 && forall j :: h < j <= i ==> g[j] == 0
  {
    if g[i] == 1 then i else Head(g, i - 1)
  }

  /** The first position after i's group. */
  ghost function End(g: seq<int>, i: nat): (e: nat)
    requires Grouped(g) && i < |g|
    ensures i < e <= |g| && (e < |g| ==> g[e] == 1) && forall j :: i < j < e ==> g[j] == 0
    decreases |g| - i
  {
    if i + 1 == |g| || g[i + 1] == 1 then i + 1 else End(g, i + 1)
  }

  /** All positions of a group have the same head and end. */
  lemma SameGroup(g: seq<int>, i: nat, j: nat)
    requires Grouped(g) && i <= j < |g| && forall k :: i < k <= j ==> g[k] == 0
    ensures Head(g, j) == Head(g, i) && End(g, j) == End(g, i)
  {
    var h, e := Head(g, j), End(g, i);
  }

  function GroupSum(g: seq<int>, x: seq<int>): (r: seq<int>)
    requires Bits(g) && |x| == |g|
    ensures |r| == |x|
  {
    DestPermutes(Not(g));
    var p := Times(PrefixSumR(x), g);
    var pi := DestComp(Not(g));
    var p1 := Apply(pi, p);
    var s1 := PrefixSumRInv(p1);
    var d1 := PrefixSumInv(s1);
    var d := Times(Unapply(pi, d1), g);
    PrefixSum(d)
  }

  // ----- GroupSum -----

  /** The suffix sums at the heads, in front. */
  ghost function HeadSuffixes(g: seq<int>, x: seq<int>): (p1: seq<int>)
    requires Bits(g) && |x| == |g|
    ensures |p1| == |g|
  {
    DestPermutes(Not(g));
    Apply(DestComp(Not(g)), Times(PrefixSumR(x), g))
  }

  lemma NotNot(g: seq<int>)
    requires Bits(g)
    ensures Not(Not(g)) == g && Bits(Not(g)) && Permutes(DestComp(Not(g)))
  {
    assert Bits(Not(g));
    DestPermutes(Not(g));
  }

  /** A head goes to its rank among the heads. */
  lemma HeadGoes(g: seq<int>, x: seq<int>, i: nat)
    requires Bits(g) && |x| == |g| && i < |g| && g[i] == 1
    ensures Bits(Not(g)) && DestComp(Not(g))[i] == Sum(g, 0, i) && 0 <= Sum(g, 0, i) < |g|
    ensures HeadSuffixes(g, x)[Sum(g, 0, i)] == Sum(x, i, |x|)
  {
    NotNot(g);
    DestIs(Not(g), i);
    DestRange(Not(g), i);
    AppliedAt(DestComp(Not(g)), Times(PrefixSumR(x), g), i);
    SuffixSum(x, i);
    assert Times(PrefixSumR(x), g)[i] == PrefixSumR(x)[i] * 1;
  }

  /** Behind the heads there are only zeros. */
  lemma BehindHeads(g: seq<int>, x: seq<int>, q: nat)
    requires Bits(g) && |x| == |g| && Sum(g, 0, |g|) <= q < |g|
    ensures HeadSuffixes(g, x)[q] == 0
  {
    NotNot(g);
    var i := Onto(DestComp(Not(g)), q);
    DestRange(Not(g), i);
    AppliedAt(DestComp(Not(g)), Times(PrefixSumR(x), g), i);
    assert Times(PrefixSumR(x), g)[i] == PrefixSumR(x)[i] * 0;
  }

  /** The rank after a head is the rank of the next one. */
  lemma NextRank(g: seq<int>, i: nat)
    requires Grouped(g) && i < |g| && g[i] == 1
    ensures Sum(g, 0, End(g, i)) == Sum(g, 0, i) + 1
  {
    var e := End(g, i);
    SumSplits(g, 0, i, e);
    SumSingle(g, i, i, e);
  }

  /** Differences of the suffix sums are the sums of the groups. */
  lemma GroupDifference(g: seq<int>, x: seq<int>, i: nat)
    requires Grouped(g) && |x| == |g| && i < |g| && g[i] == 1
    ensures 0 <= Sum(g, 0, i) < |g|
    ensures PrefixSumRInv(HeadSuffixes(g, x))[Sum(g, 0, i)] == Sum(x, i, End(g, i))
  {
    hide Sum, HeadSuffixes, Head, End, PrefixSumRInv, DestComp, Not;
    var e, p1, rank := End(g, i), HeadSuffixes(g, x), Sum(g, 0, i);
    HeadGoes(g, x, i);
    NextRank(g, i);
    SumSplits(x, i, e, |x|);
    SuffixDifference(p1, rank);
    if e < |g| {
      HeadGoes(g, x, e);
    } else {
      EmptyRange(x, |x|);
      if rank + 1 < |g| {
        BehindHeads(g, x, rank + 1);
      }
    }
  }

  lemma SuffixDifference(x: seq<int>, i: nat)
    requires i < |x|
    ensures PrefixSumRInv(x)[i] == x[i] - if i + 1 < |x| then x[i + 1] else 0
  {
  }

  lemma EmptyRange(x: seq<int>, i: nat)
    requires i <= |x|
    ensures Sum(x, i, i) == 0
  {
  }

  /** What GroupSum takes the last prefix sum of. */
  ghost function HeadDifferences(g: seq<int>, x: seq<int>): (d: seq<int>)
    requires Bits(g) && |x| == |g|
    ensures |d| == |g|
  {
    NotNot(g);
    Times(Unapply(DestComp(Not(g)), PrefixSumInv(PrefixSumRInv(HeadSuffixes(g, x)))), g)
  }

  /** At a head: by how much the group's sum exceeds the one before. */
  lemma HeadDifference(g: seq<int>, x: seq<int>, i: nat)
    requires Grouped(g) && |x| == |g| && i < |g| && g[i] == 1
    ensures HeadDifferences(g, x)[i] == Sum(x, i, End(g, i)) - if i == 0 then 0 else Sum(x, Head(g, i - 1), i)
  {
    hide Sum, HeadSuffixes, DestComp, PrefixSumRInv, PrefixSumInv, Permutes;
    NotNot(g);
    HeadGoes(g, x, i);
    GroupDifference(g, x, i);
    var s1, pi, rank := PrefixSumRInv(HeadSuffixes(g, x)), DestComp(Not(g)), Sum(g, 0, i);
    assert HeadDifferences(g, x)[i] == PrefixSumInv(s1)[pi[i]] * 1;
    DifferenceAt(s1, rank);
    if i > 0 {
      var h := Head(g, i - 1);
      GroupDifference(g, x, h);
      assert End(g, h) == i;
      NextRank(g, h);
    } else {
      EmptySum(g);
    }
  }

  lemma DifferenceAt(x: seq<int>, i: nat)
    requires i < |x|
    ensures PrefixSumInv(x)[i] == x[i] - if i == 0 then 0 else x[i - 1]
  {
  }

  lemma EmptySum(x: seq<int>)
    ensures Sum(x, 0, 0) == 0
  {
  }

  lemma {:induction false} DifferencesAddUp(g: seq<int>, x: seq<int>, i: nat)
    requires Grouped(g) && |x| == |g| && i < |g|
    ensures Sum(HeadDifferences(g, x), 0, i + 1) == Sum(x, Head(g, i), End(g, i))
  {
    var d := HeadDifferences(g, x);
    if i > 0 {
      DifferencesAddUp(g, x, i - 1);
    } else {
      assert Sum(d, 0, 1) == Sum(d, 0, 0) + d[0];
    }
    if g[i] == 1 {
      HeadDifference(g, x, i);
      if i > 0 {
        assert End(g, i - 1) == i;
      }
    } else {
      NoDifference(g, x, i);
      SameGroup(g, i - 1, i);
    }
  }

  lemma NoDifference(g: seq<int>, x: seq<int>, i: nat)
    requires Bits(g) && |x| == |g| && i < |g| && g[i] == 0
    ensures HeadDifferences(g, x)[i] == 0
  {
    NotNot(g);
    var u := Unapply(DestComp(Not(g)), PrefixSumInv(PrefixSumRInv(HeadSuffixes(g, x))));
    assert HeadDifferences(g, x)[i] == u[i] * 0;
  }

  /** Every position gets the sum of its group. */
  lemma GroupSumIs(g: seq<int>, x: seq<int>, i: nat)
    requires Grouped(g) && |x| == |g| && i < |g|
    ensures GroupSum(g, x)[i] == Sum(x, Head(g, i), End(g, i))
  {
    DifferencesAddUp(g, x, i);
    assert GroupSum(g, x) == PrefixSum(HeadDifferences(g, x));
  }

  // ----- GroupPrefixSum -----

  function GroupPrefixSum(g: seq<int>, x: seq<int>): (r: seq<int>)
    requires Bits(g) && |x| == |g|
    ensures |r| == |x|
  {
    var s := [0] + PrefixSum(x);
    var q := Times(s[..|x|], g);
    var t := GroupSum(g, q);
    seq(|x|, i requires 0 <= i < |x| => s[i + 1] - t[i])
  }

  /** Of the entries at heads only the group's own one is in the group. */
  lemma HeadOnly(g: seq<int>, s: seq<int>, i: nat)
    requires Grouped(g) && |s| == |g| && i < |g|
    ensures Sum(Times(s, g), Head(g, i), End(g, i)) == s[Head(g, i)]
  {
    hide Sum;
    var q, h := Times(s, g), Head(g, i);
    assert q[h] == s[h] * 1;
    forall j | h <= j < End(g, i) && j != h ensures q[j] == 0 {
      assert g[j] == 0;
      assert q[j] == s[j] * 0;
    }
    SumSingle(q, h, h, End(g, i));
  }

  /** Every position gets the sum from the head of its group up to itself. */
  lemma GroupPrefixSumIs(g: seq<int>, x: seq<int>, i: nat)
    requires Grouped(g) && |x| == |g| && i < |g|
    ensures GroupPrefixSum(g, x)[i] == Sum(x, Head(g, i), i + 1)
  {
    hide GroupSum, Head, End, Times, Sum, PrefixSum;
    var s, h := [0] + PrefixSum(x), Head(g, i);
    GroupSumIs(g, Times(s[..|x|], g), i);
    HeadOnly(g, s[..|x|], i);
    ShiftedPrefix(x, h);
    ShiftedPrefix(x, i + 1);
    SumSplits(x, 0, h, i + 1);
  }

  lemma ShiftedPrefix(x: seq<int>, k: nat)
    requires k <= |x|
    ensures ([0] + PrefixSum(x))[k] == Sum(x, 0, k)
  {
  }

  // ----- GroupFirstOne and GroupSame -----

  function GroupFirstOne(g: seq<int>, b: seq<int>): (r: seq<int>)
    requires Bits(g) && |b| == |g|
    ensures |r| == |b|
  {
    var s := GroupPrefixSum(g, b);
    seq(|b|, i requires 0 <= i < |b| => if s[i] * b[i] == 1 then 1 else 0)
  }

  /** 1 exactly at the first 1 of every group. */
  lemma GroupFirstOneIs(g: seq<int>, b: seq<int>, i: nat)
    requires Grouped(g) && Bits(b) && |b| == |g| && i < |g|
    ensures GroupFirstOne(g, b)[i] == 1 <==> b[i] == 1 && forall j :: Head(g, i) <= j < i ==> b[j] == 0
    ensures GroupFirstOne(g, b)[i] == 0 || GroupFirstOne(g, b)[i] == 1
  {
    var h := Head(g, i);
    GroupPrefixSumIs(g, b, i);
    assert Sum(b, h, i + 1) == Sum(b, h, i) + b[i];
    NoOnes(b, h, i);
    var s := GroupPrefixSum(g, b);
    assert b[i] == 0 ==> s[i] * b[i] == 0;
    assert b[i] == 1 ==> s[i] * b[i] == s[i];
  }

  lemma {:induction false} NoOnes(b: seq<int>, lo: nat, hi: nat)
    requires Bits(b) && lo <= hi <= |b|
    ensures Sum(b, lo, hi) == 0 <==> forall j :: lo <= j < hi ==> b[j] == 0
    decreases hi
  {
    SumOfBits(b, lo, hi);
    if lo < hi {
      NoOnes(b, lo, hi - 1);
      SumOfBits(b, lo, hi - 1);
    }
  }

  function GroupSame(g: seq<int>, y: seq<int>): (r: seq<int>)
    requires Bits(g) && |y| == |g|
    ensures |r| == |y|
  {
    var s := GroupSum(g, seq(|g|, _ => 1));
    var s0 := GroupSum(g, Not(y));
    var s1 := GroupSum(g, y);
    seq(|y|, i requires 0 <= i < |y| => if s[i] == s0[i] || s[i] == s1[i] then 1 else 0)
  }

  predicate AllSame(y: seq<int>, lo: nat, hi: nat)
    requires lo <= hi <= |y|
  {
    forall j, k :: lo <= j < k < hi ==> y[j] == y[k]
  }

  lemma SameBySums(y: seq<int>, lo: nat, hi: nat)
    requires Bits(y) && lo < hi <= |y|
    ensures AllSame(y, lo, hi) <==> Sum(y, lo, hi) == 0 || Sum(y, lo, hi) == hi - lo
  {
    SumOfBits(y, lo, hi);
    assert Bits(Not(y));
    NoOnes(y, lo, hi);
    NoOnes(Not(y), lo, hi);
    if AllSame(y, lo, hi) {
      assert forall j :: lo < j < hi ==> y[lo] == y[j];
    }
  }

  /** 1 exactly where all labels of the group agree. */
  lemma GroupSameIs(g: seq<int>, y: seq<int>, i: nat)
    requires Grouped(g) && Bits(y) && |y| == |g| && i < |g|
    ensures GroupSame(g, y)[i] == 1 <==> AllSame(y, Head(g, i), End(g, i))
  {
    hide Sum, GroupSum, AllSame;
    var ones, h, e := seq(|g|, _ => 1), Head(g, i), End(g, i);
    GroupSumIs(g, ones, i);
    GroupSumIs(g, Not(y), i);
    GroupSumIs(g, y, i);
    assert Bits(ones);
    SumOfBits(ones, h, e);
    SumZero(Not(ones), h, e);
    SumOfBits(y, h, e);
    SameBySums(y, h, e);
  }
}

/** The maximum of every group by a scan whose windows double. */
module GroupMaximum {
  import opened Powers
  import opened Vectors
  import opened GroupOps

  /** The last position of a maximum. */
  ghost function ArgMax(keys: seq<int>, lo: nat, hi: nat): (a: nat)
    requires lo < hi <= |keys|
    ensures lo <= a < hi
    ensures forall j :: lo <= j < hi ==> keys[j] <= keys[a]
    ensures forall j :: a < j < hi ==> keys[j] < keys[a]
    decreases hi
  {
    if hi == lo + 1 then lo else
      var a := ArgMax(keys, lo, hi - 1);
      if keys[a] > keys[hi - 1] then a else hi - 1
  }

  /** Of two positions the one with the greater key, or else the right one. */
  ghost function BetterOf(keys: seq<int>, a: nat, b: nat): nat
    requires a < |keys| && b < |keys|
  {
    if keys[a] > keys[b] then a else b
  }

  lemma ArgMaxSplits(keys: seq<int>, lo: nat, mid: nat, hi: nat)
    requires lo < mid < hi <= |keys|
    ensures ArgMax(keys, lo, hi) == BetterOf(keys, ArgMax(keys, lo, mid), ArgMax(keys, mid, hi))
  {
    hide ArgMax;
    var a, b, c := ArgMax(keys, lo, mid), ArgMax(keys, mid, hi), ArgMax(keys, lo, hi);
    assert keys[a] <= keys[c] && keys[b] <= keys[c];
  }

  /** The window of width w that ends at i, cut at the head of the group. */
  ghost function Low(g: seq<int>, i: nat, w: nat): (lo: nat)
    requires Grouped(g) && i < |g| && w > 0
    ensures lo <= i
  {
    if Head(g, i) + w > i then Head(g, i) else i + 1 - w
  }

  /** Where the scan with windows of width w found the maximum for i. */
  ghost function Best(g: seq<int>, keys: seq<int>, i: nat, w: nat): (b: nat)
    requires Grouped(g) && |keys| == |g| && i < |g| && w > 0
    ensures b <= i
  {
    ArgMax(keys, Low(g, i, w), i + 1)
  }

  /** Doubling the window: the better of two windows, unless the head is already inside. */
  lemma BestDoubles(g: seq<int>, keys: seq<int>, i: nat, w: nat)
    requires Grouped(g) && |keys| == |g| && i < |g| && w > 0
    ensures Head(g, i) + w > i ==> Best(g, keys, i, 2 * w) == Best(g, keys, i, w)
    ensures Head(g, i) + w <= i ==>
      && Head(g, i - w) == Head(g, i)
      && Best(g, keys, i, 2 * w) == BetterOf(keys, Best(g, keys, i - w, w), Best(g, keys, i, w))
  {
    hide Head, ArgMax;
    if Head(g, i) + w <= i {
      SameGroup(g, i - w, i);
      assert Low(g, i - w, w) == Low(g, i, 2 * w) && Low(g, i, w) == i - w + 1;
      ArgMaxSplits(keys, Low(g, i, 2 * w), i - w + 1, i + 1);
    }
  }

  /** A column holds the entries of `column` at the maxima found so far. */
  ghost predicate Holds(g: seq<int>, keys: seq<int>, w: nat, column: seq<int>, current: seq<int>)
    requires Grouped(g) && |keys| == |g| && w > 0
  {
    |column| == |current| == |g|
    && forall i: nat {:trigger current[i]} :: i < |g| ==> current[i] == column[Best(g, keys, i, w)]
  }

  /** The head of i's group is in the window of width w. */
  ghost predicate Reached(g: seq<int>, w: nat, r: seq<int>)
    requires Grouped(g)
  {
    |r| == |g| && forall i: nat {:trigger r[i]} :: i < |g| ==> r[i] == if Head(g, i) + w > i then 1 else 0
  }

  /** if_else on a column from position w on. */
  function Step(reached: seq<int>, keys: seq<int>, column: seq<int>, w: nat): (r: seq<int>)
    requires |reached| == |keys| == |column|
    ensures |r| == |column|
  {
    seq(|column|, i requires 0 <= i < |column| =>
        if i < w || reached[i] == 1 then column[i] else if keys[i - w] > keys[i] then column[i - w] else column[i])
  }

  lemma StepHolds(g: seq<int>, keys: seq<int>, w: nat, reached: seq<int>, current: seq<int>, column: seq<int>,
                  c: seq<int>)
    requires Grouped(g) && |keys| == |g| && w > 0
    requires Reached(g, w, reached) && Holds(g, keys, w, keys, current) && Holds(g, keys, w, column, c)
    ensures Holds(g, keys, 2 * w, column, Step(reached, current, c, w))
  {
    var r := Step(reached, current, c, w);
    forall i: nat {:trigger r[i]} | i < |g| ensures r[i] == column[Best(g, keys, i, 2 * w)] {
      StepAt(g, keys, w, reached, current, column, c, i);
    }
  }

  lemma StepAt(g: seq<int>, keys: seq<int>, w: nat, reached: seq<int>, current: seq<int>, column: seq<int>, c: seq<int>,
               i: nat)
    requires Grouped(g) && |keys| == |g| && w > 0 && i < |g|
    requires Reached(g, w, reached) && Holds(g, keys, w, keys, current) && Holds(g, keys, w, column, c)
    ensures Step(reached, current, c, w)[i] == column[Best(g, keys, i, 2 * w)]
  {
    hide Best, ArgMax;
    BestDoubles(g, keys, i, w);
    assert reached[i] == if Head(g, i) + w > i then 1 else 0;
    assert c[i] == column[Best(g, keys, i, w)] && current[i] == keys[Best(g, keys, i, w)];
    if i >= w {
      assert c[i - w] == column[Best(g, keys, i - w, w)] && current[i - w] == keys[Best(g, keys, i - w, w)];
    }
  }

  /** OR with the entry w positions before. */
  function Widen(reached: seq<int>, w: nat): (r: seq<int>)
    ensures |r| == |reached|
  {
    seq(|reached|, i requires 0 <= i < |reached| =>
        if i < w then reached[i] else if reached[i - w] == 1 || reached[i] == 1 then 1 else 0)
  }

  lemma WidenReaches(g: seq<int>, w: nat, reached: seq<int>)
    requires Grouped(g) && w > 0 && Reached(g, w, reached)
    ensures Reached(g, 2 * w, Widen(reached, w))
  {
    var r := Widen(reached, w);
    forall i: nat {:trigger r[i]} | i < |g| ensures r[i] == if Head(g, i) + 2 * w > i then 1 else 0 {
      assert reached[i] == if Head(g, i) + w > i then 1 else 0;
      if i >= w {
        assert reached[i - w] == if Head(g, i - w) + w > i - w then 1 else 0;
        if Head(g, i) + w <= i {
          SameGroup(g, i - w, i);
        }
      }
    }
  }

  ghost predicate AllHold(g: seq<int>, keys: seq<int>, w: nat, x: seq<seq<int>>, current: seq<seq<int>>)
    requires Grouped(g) && |keys| == |g| && w > 0
  {
    |current| == |x| && forall j: nat {:trigger current[j]} :: j < |x| ==> Holds(g, keys, w, x[j], current[j])
  }

  /** One round over the keys and all payload columns. */
  method Round(g: seq<int>, w: nat, reached: seq<int>, current: seq<int>, columns: seq<seq<int>>, ghost keys: seq<int>,
               ghost x: seq<seq<int>>)
    returns (reached': seq<int>, current': seq<int>, columns': seq<seq<int>>)
    requires Grouped(g) && |keys| == |g| && w > 0
    requires Reached(g, w, reached) && Holds(g, keys, w, keys, current) && AllHold(g, keys, w, x, columns)
    ensures Reached(g, 2 * w, reached') && Holds(g, keys, 2 * w, keys, current') && AllHold(g, keys, 2 * w, x, columns')
  {
    hide Best, Step, Widen;
    reached' := Widen(reached, w);
    WidenReaches(g, w, reached);
    current' := Step(reached, current, current, w);
    StepHolds(g, keys, w, reached, current, keys, current);
    columns' := [];
    for j := 0 to |columns|
      invariant |columns'| == j && forall l: nat {:trigger columns'[l]} :: l < j ==>
        Holds(g, keys, 2 * w, x[l], columns'[l])
    {
      assert Holds(g, keys, w, x[j], columns[j]);
      StepHolds(g, keys, w, reached, current, x[j], columns[j]);
      columns' := columns' + [Step(reached, current, columns[j], w)];
    }
  }

  /** All rounds: the windows reach every head. */
  method Scan(g: seq<int>, keys: seq<int>, x: seq<seq<int>>) returns (current: seq<int>, columns: seq<seq<int>>)
    requires Grouped(g) && |keys| == |g| && forall j :: 0 <= j < |x| ==> |x[j]| == |g|
    ensures Holds(g, keys, Pow2(CeilLog2(|g|)), keys, current) && AllHold(g, keys, Pow2(CeilLog2(|g|)), x, columns)
  {
    var reached := g;
    current, columns := keys, x;
    ScanStarts(g, keys, x);
    hide Holds, AllHold, Reached;
    for d := 0 to CeilLog2(|g|)
      invariant Reached(g, Pow2(d), reached) && Holds(g, keys, Pow2(d), keys, current) &&
        AllHold(g, keys, Pow2(d), x, columns)
    {
      reached, current, columns := Round(g, Pow2(d), reached, current, columns, keys, x);
    }
  }

  lemma ScanStarts(g: seq<int>, keys: seq<int>, x: seq<seq<int>>)
    requires Grouped(g) && |keys| == |g| && forall j :: 0 <= j < |x| ==> |x[j]| == |g|
    ensures Reached(g, Pow2(0), g) && Holds(g, keys, Pow2(0), keys, keys) && AllHold(g, keys, Pow2(0), x, x)
  {
    assert forall i: nat :: i < |g| ==> Low(g, i, 1) == i && Best(g, keys, i, 1) == i;
  }

  /** 1 at the last position of every group. */
  function Tails(g: seq<int>): (t: seq<int>)
    requires |g| > 0
    ensures |t| == |g|
  {
    g[1..] + [1]
  }

  /** Summing a column at the tails spreads the entry at the tail over the group. */
  lemma TailSpreads(g: seq<int>, column: seq<int>, i: nat)
    requires Grouped(g) && |column| == |g| && i < |g|
    ensures GroupSum(g, Times(Tails(g), column))[i] == column[End(g, i) - 1]
  {
    hide Sum, GroupSum;
    var q, h, e := Times(Tails(g), column), Head(g, i), End(g, i);
    GroupSumIs(g, q, i);
    assert q[e - 1] == 1 * column[e - 1];
    forall j | h <= j < e && j != e - 1 ensures q[j] == 0 {
      assert g[j + 1] == 0;
      assert q[j] == 0 * column[j];
    }
    SumSingle(q, h, e - 1, e);
  }

  lemma TailIsBest(g: seq<int>, keys: seq<int>, w: nat, i: nat)
    requires Grouped(g) && |keys| == |g| && w >= |g| && i < |g|
    ensures Best(g, keys, End(g, i) - 1, w) == ArgMax(keys, Head(g, i), End(g, i))
  {
    hide ArgMax, Head, End;
    SameGroup(g, i, End(g, i) - 1);
    assert Low(g, End(g, i) - 1, w) == Head(g, i);
  }

  /** The entries of a column at the group's last maximum. */
  lemma ColumnAtMaximum(g: seq<int>, keys: seq<int>, column: seq<int>, current: seq<int>, w: nat, i: nat)
    requires Grouped(g) && |keys| == |g| && w >= |g| && i < |g| && Holds(g, keys, w, column, current)
    ensures GroupSum(g, Times(Tails(g), current))[i] == column[ArgMax(keys, Head(g, i), End(g, i))]
  {
    hide GroupSum, ArgMax, Head, End, Times, Tails, Best;
    var last := End(g, i) - 1;
    TailSpreads(g, current, i);
    TailIsBest(g, keys, w, i);
    assert current[last] == column[Best(g, keys, last, w)];
  }

  /** Every position gets the maximal key of its group and the payloads of the last element that has it. */
  method GroupMax(g: seq<int>, keys: seq<int>, x: seq<seq<int>>) returns (maxKeys: seq<int>, maxX: seq<seq<int>>)
    requires Grouped(g) && |keys| == |g| && forall j :: 0 <= j < |x| ==> |x[j]| == |g|
    ensures |maxKeys| == |g| && |maxX| == |x| && forall j :: 0 <= j < |x| ==> |maxX[j]| == |g|
    ensures forall i: nat :: i < |g| ==> maxKeys[i] == keys[ArgMax(keys, Head(g, i), End(g, i))]
    ensures forall j: nat, i: nat :: j < |x| && i < |g| ==> maxX[j][i] == x[j][ArgMax(keys, Head(g, i), End(g, i))]
  {
    hide GroupSum, ArgMax, Best;
    var current, columns := Scan(g, keys, x);
    var w := Pow2(CeilLog2(|g|));
    maxKeys := GroupSum(g, Times(Tails(g), current));
    forall i: nat | i < |g| ensures maxKeys[i] == keys[ArgMax(keys, Head(g, i), End(g, i))] {
      ColumnAtMaximum(g, keys, keys, current, w, i);
    }
    maxX := [];
    for j := 0 to |x|
      invariant |maxX| == j && forall l :: 0 <= l < j ==> |maxX[l]| == |g|
      invariant forall l: nat, i: nat :: l < j && i < |g| ==> maxX[l][i] == x[l][ArgMax(keys, Head(g, i), End(g, i))]
    {
      assert Holds(g, keys, w, x[j], columns[j]);
      var column := GroupSum(g, Times(Tails(g), columns[j]));
      forall i: nat | i < |g| ensures column[i] == x[j][ArgMax(keys, Head(g, i), End(g, i))] {
        ColumnAtMaximum(g, keys, x[j], columns[j], w, i);
      }
      maxX := maxX + [column];
    }
  }
}
