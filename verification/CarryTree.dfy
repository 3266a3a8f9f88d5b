/** The last carry of an addition by a tree of pairs, and the comparison built on it. */
module CarryTree {
  import opened Powers
  import opened PrefixNetworks
  import opened Vectors
  import opened Adders

  datatype Slot = None | Some(pair: Pair)

  /** comparison.carry(b, a, compute_p): None on either side passes the other one on. */
  function CarrySlot(lower: Slot, upper: Slot, computeP: bool): Slot {
    if upper.None? then lower
    else if lower.None? then upper
    else Some(Carry(lower.pair, upper.pair, computeP))
  }

  function Reversed<T>(s: seq<T>): (r: seq<T>)
    ensures |r| == |s| && forall i :: 0 <= i < |s| ==> r[i] == s[|s| - 1 - i]
  {
    seq(|s|, i requires 0 <= i < |s| => s[|s| - 1 - i])
  }

  /** The slots, lowest first, are right for these pairs. */
  ghost predicate RightSlots(a: seq<Slot>, v: seq<PG>) {
    |a| == |v| > 0 && forall i: nat :: i < |a| ==> a[i].Some? && Right(a[i].pair, v[i], i == 0)
  }

  /** The pairs of one level up: two at a time, and the highest one alone if it is left over. */
  ghost function Halved(v: seq<PG>): (r: seq<PG>)
    ensures |r| == (|v| + 1) / 2
  {
    seq((|v| + 1) / 2, i requires 0 <= i < (|v| + 1) / 2 =>
        if 2 * i + 1 < |v| then Combine(v[2 * i], v[2 * i + 1]) else v[2 * i])
  }

  /** Halving keeps the fold. */
  lemma HalvedFold(v: seq<PG>)
    requires |v| > 1
    ensures Fold(Combine, Halved(v), 0, |Halved(v)|) == Fold(Combine, v, 0, |v|)
  {
    CombineIsAssociative();
    hide Associative, Combine;
    var n, h := |v| / 2, Halved(v);
    PairFold(Combine, v, h[..n], n - 1);
    FoldOfPrefix(h, n);
    if |v| % 2 == 1 {
      assert h[n] == v[2 * n];
    }
  }

  lemma {:induction false} FoldOfPrefix(v: seq<PG>, n: nat)
    requires 0 < n <= |v|
    ensures Fold(Combine, v[..n], 0, n) == Fold(Combine, v, 0, n)
  {
    FoldDepends(v[..n], v, n);
  }

  lemma {:induction false} FoldDepends(v: seq<PG>, w: seq<PG>, n: nat)
    requires 0 < n <= |v| && n <= |w| && forall i :: 0 <= i < n ==> v[i] == w[i]
    ensures Fold(Combine, v, 0, n) == Fold(Combine, w, 0, n)
  {
    if n > 1 {
      FoldDepends(v, w, n - 1);
    }
  }

  /** CarryOutAux: pairs of neighbours, from the highest down, until one is left. */
  method CarryOutAux(a0: seq<Slot>, ghost v: seq<PG>) returns (g: int)
    requires RightSlots(a0, v)
    ensures g == Fold(Combine, v, 0, |v|).1
    decreases |a0|
  {
    var a, k := a0, |a0|;
    if k > 1 && k % 2 == 1 {
      a, k := a + [None], k + 1;
    }
    a := Reversed(a);
    if k > 1 {
      var u := [];
      for i := 0 to k / 2
        invariant |u| == i
        invariant forall j: nat :: j < i ==> u[j] == CarrySlot(a[2 * j + 1], a[2 * j], j != k / 2 - 1)
      {
        u := u + [CarrySlot(a[2 * i + 1], a[2 * i], i != k / 2 - 1)];
      }
      HalvedFold(v);
      UpIsRight(a0, v, a, u);
      g := CarryOutAux(Reversed(u), Halved(v));
    } else {
      g := a[0].pair.g;
    }
  }

  /** One level up the slots are right again. */
  lemma UpIsRight(a0: seq<Slot>, v: seq<PG>, a: seq<Slot>, u: seq<Slot>)
    requires RightSlots(a0, v) && |a0| > 1 && |a| == 2 * |u| && |u| == (|a0| + 1) / 2
    requires a == Reversed(if |a0| % 2 == 1 then a0 + [None] else a0)
    requires forall j: nat :: j < |u| ==> u[j] == CarrySlot(a[2 * j + 1], a[2 * j], j != |u| - 1)
    ensures RightSlots(Reversed(u), Halved(v))
  {
    var r, n := Reversed(u), |u|;
    forall i: nat | i < n ensures r[i].Some? && Right(r[i].pair, Halved(v)[i], i == 0) {
      var j := n - 1 - i;
      assert r[i] == u[j];
      assert a[2 * j + 1] == a0[2 * i];
      if 2 * i + 1 < |a0| {
        assert a[2 * j] == a0[2 * i + 1];
        assert Right(a0[2 * i].pair, v[2 * i], 2 * i == 0) && Right(a0[2 * i + 1].pair, v[2 * i + 1], false);
      } else {
        assert a[2 * j] == None;
        assert Right(a0[2 * i].pair, v[2 * i], 2 * i == 0);
      }
    }
  }

  /** The half adders of CarryOutRaw. */
  method AddHalves(a: seq<int>, b: seq<int>) returns (d: seq<Pair>)
    requires |a| == |b|
    ensures |d| == |a| && forall j: nat :: j < |a| ==> d[j] == HalfPair(b[j], a[j])
  {
    d := [];
    for i := 0 to |a|
      invariant |d| == i && forall j: nat :: j < i ==> d[j] == HalfPair(b[j], a[j])
    {
      d := d + [HalfPair(b[i], a[i])];
    }
  }

  function HalfPair(b: int, a: int): (d: Pair)
    ensures d.Pair? && d.p.Known?
  {
    Pair(Known(HalfAdder(b, a).0), HalfAdder(b, a).1)
  }

  /** CarryOutRaw: both lists start with the highest bit; the carry-in c goes into the lowest pair. */
  method CarryOutRaw(a: seq<int>, b: seq<int>, c: int) returns (carry: int)
    requires Bits(a) && Bits(b) && Bit(c) && |a| == |b| > 0
    ensures Bit(carry)
    ensures carry == (Value(Reversed(a), |a|) + Value(Reversed(b), |b|) + c) / Pow2(|a|)
  {
    hide Value, Fold, PairsOf, Combine, HalfAdder, Pow2;
    var k := |a|;
    ghost var al, bl := Reversed(a), Reversed(b);
    var d := AddHalves(a, b);
    assert d[k - 1].p.Known?;
    var s0 := d[k - 1].p.bit * c;
    d := d[k - 1 := Pair(d[k - 1].p, d[k - 1].g + s0)];
    var slots := seq(k, i requires 0 <= i < k => Some(d[k - 1 - i]));
    forall i: nat | i < k
      ensures slots[i] == Some(Pair(Known(HalfAdder(bl[i], al[i]).0),
                                    HalfAdder(bl[i], al[i]).1 + if i == 0 then HalfAdder(bl[i], al[i]).0 * c else 0))
    {
      assert d[k - 1 - i].p == HalfPair(bl[i], al[i]).p;
    }
    SlotsAreRight(al, bl, c, slots);
    carry := CarryOutAux(slots, PairsOf(al, bl, c));
    ReversedBits(a);
    ReversedBits(b);
    CarryIsQuotient(al, bl, c);
  }

  lemma SlotsAreRight(a: seq<int>, b: seq<int>, c: int, slots: seq<Slot>)
    requires |a| == |b| == |slots| > 0
    requires forall i: nat :: i < |a| ==>
      slots[i] == Some(Pair(Known(HalfAdder(b[i], a[i]).0),
                            HalfAdder(b[i], a[i]).1 + if i == 0 then HalfAdder(b[i], a[i]).0 * c else 0))
    ensures RightSlots(slots, PairsOf(a, b, c))
  {
    forall i: nat | i < |a| ensures HalfAdder(b[i], a[i]) == HalfAdder(a[i], b[i]) {
      assert b[i] * a[i] == a[i] * b[i];
    }
  }

  lemma CarryIsQuotient(a: seq<int>, b: seq<int>, c: int)
    requires Bits(a) && Bits(b) && Bit(c) && |a| == |b| > 0
    ensures var r := Fold(Combine, PairsOf(a, b, c), 0, |a|).1;
            Bit(r) && r == (Value(a, |a|) + Value(b, |b|) + c) / Pow2(|a|)
  {
    CarryIsOverflow(a, b, c, |a|);
    var r, t, p := CarryInto(a, b, c, |a|), Value(a, |a|) + Value(b, |b|) + c, Pow2(|a|);
    ModUnique(t, r, p, t - r * p);
  }

  // ----- Comparison -----

  /** bits(a, m): the lowest m bits of a. */
  method BitsOf(a: nat, m: nat) returns (res: seq<int>)
    ensures |res| == m && Bits(res) && Value(res, m) == a % Pow2(m)
  {
    res := [];
    var rest := a;
    for i := 0 to m
      invariant |res| == i && Bits(res) && rest >= 0
      invariant Value(res, i) + rest * Pow2(i) == a
      invariant 0 <= Value(res, i) < Pow2(i)
    {
      BitTaken(res, rest, i);
      res := res + [rest % 2];
      rest := rest / 2;
    }
    ModUnique(a, rest, Pow2(m), Value(res, m));
  }

  lemma BitTaken(res: seq<int>, rest: nat, i: nat)
    requires |res| == i && Bits(res)
    ensures Value(res + [rest % 2], i + 1) + rest / 2 * Pow2(i + 1) == Value(res, i) + rest * Pow2(i)
    ensures 0 <= Value(res + [rest % 2], i + 1) < Pow2(i + 1)
  {
    var r := res + [rest % 2];
    ValueOfPrefix(r, res, i);
    ValueRange(r, i + 1);
    var p, h, l := Pow2(i), rest / 2, rest % 2;
    assert h * (2 * p) + l * p == (2 * h + l) * p;
  }

  lemma {:induction false} ComplementValue(b: seq<int>, n: nat)
    requires n <= |b|
    ensures Value(Not(b), n) == Pow2(n) - 1 - Value(b, n)
  {
    if n > 0 {
      ComplementValue(b, n - 1);
      assert (1 - b[n - 1]) * Pow2(n - 1) == Pow2(n - 1) - b[n - 1] * Pow2(n - 1);
    }
  }

  lemma ReversedBits(b: seq<int>)
    ensures Reversed(Reversed(b)) == b && (Bits(b) ==> Bits(Reversed(b)))
  {
  }

  /** Adding the complement and 1 overflows exactly if nothing is borrowed. */
  lemma Borrow(x: int, y: int, p: int)
    requires 0 <= x < p && 0 <= y < p
    ensures (x + (p - 1 - y) + 1) / p == if x < y then 0 else 1
  {
    ModUnique(x - y + p, if x < y then 0 else 1, p, if x < y then x - y + p else x - y);
  }

  /** BitLTL_raw: no carry out of a + (2^k - 1 - b) + 1 exactly if a < b. */
  method BitLTLRaw(aBits: seq<int>, b: seq<int>) returns (less: int)
    requires Bits(aBits) && Bits(b) && |aBits| == |b| > 0
    ensures less == if Value(aBits, |b|) < Value(b, |b|) then 1 else 0
  {
    hide Value, Pow2;
    var s := Not(b);
    ReversedBits(aBits);
    assert Bits(s);
    ReversedBits(s);
    var carry := CarryOutRaw(Reversed(aBits), Reversed(s), 1);
    ComplementValue(b, |b|);
    ValueRange(aBits, |b|);
    ValueRange(b, |b|);
    Borrow(Value(aBits, |b|), Value(b, |b|), Pow2(|b|));
    less := 1 - carry;
  }

  /** BitLTL on a clear number and secret bits. */
  method BitLTL(a: nat, b: seq<int>) returns (less: int)
    requires Bits(b) && |b| > 0
    ensures less == if a % Pow2(|b|) < Value(b, |b|) then 1 else 0
  {
    var aBits := BitsOf(a, |b|);
    less := BitLTLRaw(aBits, b);
  }
}
