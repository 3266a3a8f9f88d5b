/** Carries: the generate and propagate pairs of binary addition, and the networks that combine them. */
module Adders {
  import opened Powers
  import opened PrefixNetworks
  import opened Vectors

  /** The number with these bits, the lowest first. */
  function Value(x: seq<int>, n: nat): int
    requires n <= |x|
  {
    if n == 0 then 0 else Value(x, n - 1) + x[n - 1] * Pow2(n - 1)
  }

  // ----- Pairs -----

  /** A propagate bit that was not computed must not be read. */
  datatype Propagate = Missing | Known(bit: int)

  datatype Pair = Pair(p: Propagate, g: int) | Misread

  /** carry(b, a, compute_p): `lower` is b, `upper` is a. */
  function Carry(lower: Pair, upper: Pair, computeP: bool): Pair {
    if lower.Misread? || upper.Misread? || upper.p.Missing? || (computeP && lower.p.Missing?) then Misread
    else Pair(if computeP then Known(upper.p.bit * lower.p.bit) else Missing, upper.g + upper.p.bit * lower.g)
  }

  /** Propagate and generate without anything missing. */
  type PG = (int, int)

  function Combine(lower: PG, upper: PG): PG {
    (upper.0 * lower.0, upper.1 + upper.0 * lower.1)
  }

  lemma CombineAssociates(a: PG, b: PG, c: PG)
    ensures AssociatesAt(Combine, a, b, c)
  {
    assert c.0 * (b.0 * a.0) == (c.0 * b.0) * a.0;
    assert c.0 * (b.1 + b.0 * a.1) == c.0 * b.1 + (c.0 * b.0) * a.1;
  }

  lemma CombineIsAssociative()
    ensures Associative(Combine)
  {
    forall a: PG, b: PG, c: PG {:trigger AssociatesAt(Combine, a, b, c)} ensures AssociatesAt(Combine, a, b, c) {
      CombineAssociates(a, b, c);
    }
  }

  /** The pair has the right generate bit, and the right propagate bit unless it belongs to the lowest block. */
  predicate Right(pair: Pair, v: PG, whole: bool) {
    pair.Pair? && pair.g == v.1 && (whole || pair.p == Known(v.0))
  }

  lemma CarrySimulates()
    ensures Simulates(Carry, Combine, Right)
  {
    forall a: Pair, b: Pair, va: PG, vb: PG, whole: bool
      {:trigger SimulatesAt(Carry, Combine, Right, a, b, va, vb, whole)}
      ensures SimulatesAt(Carry, Combine, Right, a, b, va, vb, whole)
    {
    }
  }

  // ----- Carries of an addition -----

  function HalfAdder(a: int, b: int): PG {
    (a + b - 2 * (a * b), a * b)
  }

  /** The pairs of an addition, the lowest first; a carry-in goes into the lowest generate bit. */
  ghost function PairsOf(a: seq<int>, b: seq<int>, c: int): (v: seq<PG>)
    requires |a| == |b|
    ensures |v| == |a|
  {
    seq(|a|, i requires 0 <= i < |a| =>
        var h := HalfAdder(a[i], b[i]);
        if i == 0 then (h.0, h.1 + h.0 * c) else h)
  }

  /** The carry out of the lowest n bits. */
  ghost function CarryInto(a: seq<int>, b: seq<int>, c: int, n: nat): int
    requires |a| == |b| && n <= |a|
  {
    if n == 0 then c else Fold(Combine, PairsOf(a, b, c), 0, n).1
  }

  predicate Bit(x: int) {
    x == 0 || x == 1
  }

  /** One full adder. */
  lemma CarryStep(a: seq<int>, b: seq<int>, c: int, n: nat)
    requires |a| == |b| && n < |a|
    ensures CarryInto(a, b, c, n + 1) == HalfAdder(a[n], b[n]).1 + HalfAdder(a[n], b[n]).0 * CarryInto(a, b, c, n)
  {
  }

  /** The carry is what the addition of the lowest n bits overflows by. */
  lemma {:induction false} CarryIsOverflow(a: seq<int>, b: seq<int>, c: int, n: nat)
    requires Bits(a) && Bits(b) && Bit(c) && |a| == |b| && n <= |a|
    ensures Bit(CarryInto(a, b, c, n))
    ensures CarryInto(a, b, c, n) * Pow2(n) <= Value(a, n) + Value(b, n) + c < CarryInto(a, b, c, n) * Pow2(n) + Pow2(n)
  {
    if n > 0 {
      CarryIsOverflow(a, b, c, n - 1);
      CarryStep(a, b, c, n - 1);
      OverflowStep(a[n - 1], b[n - 1], CarryInto(a, b, c, n - 1), Pow2(n - 1), Value(a, n - 1) + Value(b, n - 1) + c);
      assert Value(a, n) == Value(a, n - 1) + a[n - 1] * Pow2(n - 1);
      assert Value(b, n) == Value(b, n - 1) + b[n - 1] * Pow2(n - 1);
    }
  }

  /** The carry of a full adder: at least two of the three bits. */
  lemma FullAdder(x: int, y: int, c: int)
    requires Bit(x) && Bit(y) && Bit(c)
    ensures HalfAdder(x, y).1 + HalfAdder(x, y).0 * c == if x + y + c >= 2 then 1 else 0
  {
    if x == 0 {
      if y == 0 {} else {}
    } else {
      if y == 0 {} else {}
    }
  }

  lemma BitTimes(b: int, p: int)
    requires Bit(b)
    ensures b * p == if b == 0 then 0 else p
  {
  }

  lemma OverflowStep(x: int, y: int, c: int, p: int, sum: int)
    requires Bit(x) && Bit(y) && Bit(c) && c * p <= sum < c * p + p
    ensures var d := HalfAdder(x, y).1 + HalfAdder(x, y).0 * c;
            Bit(d) && d * (2 * p) <= sum + x * p + y * p < d * (2 * p) + 2 * p
  {
    hide HalfAdder;
    FullAdder(x, y, c);
    BitTimes(x, p);
    BitTimes(y, p);
    BitTimes(c, p);
    BitTimes(HalfAdder(x, y).1 + HalfAdder(x, y).0 * c, 2 * p);
  }

  lemma {:induction false} ValueRange(x: seq<int>, n: nat)
    requires Bits(x) && n <= |x|
    ensures 0 <= Value(x, n) < Pow2(n)
  {
    if n > 0 {
      ValueRange(x, n - 1);
      assert x[n - 1] == 0 || x[n - 1] == 1;
    }
  }

  lemma {:induction false} ValueOfPrefix(x: seq<int>, y: seq<int>, n: nat)
    requires n <= |x| && n <= |y| && forall i :: 0 <= i < n ==> x[i] == y[i]
    ensures Value(x, n) == Value(y, n)
  {
    if n > 0 {
      ValueOfPrefix(x, y, n - 1);
    }
  }

  // ----- BitAdd -----

  /** The sum bits and the carry together are the sum. */
  lemma {:induction false} SumBits(a: seq<int>, b: seq<int>, s: seq<int>, n: nat)
    requires Bits(a) && Bits(b) && |a| == |b| && n <= |a| && |s| == |a| + 1
    requires forall i: nat :: i < |a| ==> SumBitAt(a, b, s, i)
    ensures Value(s, n) + CarryInto(a, b, 0, n) * Pow2(n) == Value(a, n) + Value(b, n)
  {
    if n > 0 {
      SumBits(a, b, s, n - 1);
      var m := n - 1;
      var c, p := CarryInto(a, b, 0, m), Pow2(m);
      SumStepAt(a, b, s, m);
      calc {
        Value(s, n) + CarryInto(a, b, 0, n) * Pow2(n);
        Value(s, m) + (s[m] * p + CarryInto(a, b, 0, n) * Pow2(n));
        Value(s, m) + c * p + a[m] * p + b[m] * p;
        Value(a, n) + Value(b, n);
      }
    }
  }

  lemma SumStepAt(a: seq<int>, b: seq<int>, s: seq<int>, m: nat)
    requires Bits(a) && Bits(b) && |a| == |b| && m < |a| && |s| == |a| + 1 && SumBitAt(a, b, s, m)
    ensures s[m] * Pow2(m) + CarryInto(a, b, 0, m + 1) * Pow2(m + 1) ==
            CarryInto(a, b, 0, m) * Pow2(m) + a[m] * Pow2(m) + b[m] * Pow2(m)
    ensures Bit(s[m]) && Bit(CarryInto(a, b, 0, m + 1))
  {
    CarryIsOverflow(a, b, 0, m);
    CarryStep(a, b, 0, m);
    hide CarryInto, HalfAdder;
    SumStep(a[m], b[m], CarryInto(a, b, 0, m), s[m], CarryInto(a, b, 0, m + 1), Pow2(m), Pow2(m + 1));
  }

  ghost predicate SumBitAt(a: seq<int>, b: seq<int>, s: seq<int>, i: nat)
    requires |a| == |b| && i < |a| && i < |s|
  {
    s[i] == a[i] + b[i] + CarryInto(a, b, 0, i) - 2 * CarryInto(a, b, 0, i + 1)
  }

  lemma SumStep(x: int, y: int, c: int, t: int, d: int, p: int, q: int)
    requires Bit(x) && Bit(y) && Bit(c) && t == x + y + c - 2 * d && q == 2 * p
    requires d == HalfAdder(x, y).1 + HalfAdder(x, y).0 * c
    ensures Bit(d) && Bit(t) && t * p + d * q == c * p + x * p + y * p
  {
    hide HalfAdder;
    FullAdder(x, y, c);
    BitTimes(x, p);
    BitTimes(y, p);
    BitTimes(c, p);
    BitTimes(d, q);
    BitTimes(t, p);
  }

  /** The k + 1 bits of the sum; no propagate bit is read that was skipped. */
  method BitAdd(a: seq<int>, b: seq<int>) returns (s: seq<int>)
    requires Bits(a) && Bits(b) && |a| == |b| > 0
    ensures |s| == |a| + 1 && Bits(s)
    ensures Value(s, |s|) == Value(a, |a|) + Value(b, |b|)
  {
    var d := HalfAdders(a, b);
    var pg := PreOpL(Carry, d);
    CarriesFound(a, b, d, pg);
    s := SumOf(a, b, pg);
  }

  /** The pairs d; nobody asks for the lowest propagate bit. */
  method HalfAdders(a: seq<int>, b: seq<int>) returns (d: seq<Pair>)
    requires |a| == |b| > 0
    ensures |d| == |a| && forall j: nat :: j < |a| ==> Right(d[j], PairsOf(a, b, 0)[j], j == 0)
  {
    d := [Pair(Missing, a[0] * b[0])];
    for i := 1 to |a|
      invariant |d| == i && forall j: nat :: j < i ==> Right(d[j], PairsOf(a, b, 0)[j], j == 0)
    {
      var t := a[i] * b[i];
      d := d + [Pair(Known(a[i] + b[i] - 2 * t), t)];
    }
  }

  method SumOf(a: seq<int>, b: seq<int>, pg: seq<Pair>) returns (s: seq<int>)
    requires Bits(a) && Bits(b) && |a| == |b| == |pg| > 0
    requires forall i: nat :: i < |a| ==> pg[i].Pair? && pg[i].g == CarryInto(a, b, 0, i + 1)
    ensures |s| == |a| + 1 && Bits(s)
    ensures Value(s, |s|) == Value(a, |a|) + Value(b, |b|)
  {
    var k := |a|;
    s := [a[0] + b[0] - 2 * pg[0].g];
    NoCarryIn(a, b);
    hide CarryInto;
    for i := 1 to k
      invariant |s| == i
      invariant forall j: nat {:trigger s[j]} :: j < i ==>
        s[j] == a[j] + b[j] + CarryInto(a, b, 0, j) - 2 * CarryInto(a, b, 0, j + 1)
    {
      s := s + [a[i] + b[i] + pg[i - 1].g - 2 * pg[i].g];
    }
    s := s + [pg[k - 1].g];
    assert forall j: nat :: j < k ==> SumBitAt(a, b, s, j);
    SumBits(a, b, s, k);
    forall i: nat | i < k ensures Bit(s[i]) {
      SumStepAt(a, b, s, i);
    }
    SumStepAt(a, b, s, k - 1);
  }

  lemma NoCarryIn(a: seq<int>, b: seq<int>)
    requires |a| == |b|
    ensures CarryInto(a, b, 0, 0) == 0
  {
  }

  lemma CarriesFound(a: seq<int>, b: seq<int>, d: seq<Pair>, pg: seq<Pair>)
    requires |a| == |b| == |d| > 0 && pg == Rounds(Carry, d, CeilLog2(|d|))
    requires forall j: nat :: j < |d| ==> Right(d[j], PairsOf(a, b, 0)[j], j == 0)
    ensures forall i: nat :: i < |d| ==> pg[i].Pair? && pg[i].g == CarryInto(a, b, 0, i + 1)
  {
    CombineIsAssociative();
    CarrySimulates();
    forall i: nat | i < |d| ensures pg[i].Pair? && pg[i].g == CarryInto(a, b, 0, i + 1) {
      NetworkStands(Carry, Combine, Right, PairsOf(a, b, 0), d, i);
    }
  }
}
