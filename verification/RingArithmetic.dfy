/** Comparison and truncation of secret numbers modulo 2^R. Every operation opens a masked number; the results are
    exact for every value of the mask. Secret values are modelled by the ring elements they stand for. */
module RingArithmetic {
  import opened Powers
  import opened Vectors
  import opened PrefixNetworks
  import opened Adders
  import opened CarryTree

  // ----- Shifts -----

  function Ring(x: int, R: nat): (r: nat)
    ensures r < Pow2(R)
  {
    x % Pow2(R)
  }

  function Shl(x: int, s: nat, R: nat): (r: nat)
    ensures r < Pow2(R)
  {
    Ring(x * Pow2(s), R)
  }

  function Shr(x: int, s: nat): int {
    x / Pow2(s)
  }

  lemma DivBounds(x: int, p: int)
    requires p > 0
    ensures x == x / p * p + x % p && 0 <= x % p < p
  {
  }

  lemma MulAdd(a: int, b: int, p: int)
    ensures (a + b) * p == a * p + b * p
  {
  }

  lemma MulAssoc(a: int, b: int, c: int)
    ensures (a * b) * c == a * (b * c)
  {
  }

  lemma MulLe(a: int, b: int, p: int)
    requires a <= b && p >= 0
    ensures a * p <= b * p
  {
    MulAdd(a, b - a, p);
    assert (b - a) * p >= 0;
  }

  /** Scaling quotient and remainder. */
  lemma ScaledDivision(x: int, q: int, p: int, d: int, r: int)
    requires x == d * q + r && 0 <= r < q && p > 0
    ensures x * p == d * (q * p) + r * p && 0 <= r * p < q * p
  {
    MulAdd(d * q, r, p);
    MulAssoc(d, q, p);
    MulLe(0, r, p);
    MulLe(r + 1, q, p);
    MulAdd(r, 1, p);
  }

  /** Multiplying by a power of two and reducing. */
  lemma ModScale(x: int, s: nat, k: nat)
    ensures x * Pow2(s) % Pow2(s + k) == x % Pow2(k) * Pow2(s)
  {
    Pow2Splits(s, k);
    DivBounds(x, Pow2(k));
    ScaledDivision(x, Pow2(k), Pow2(s), x / Pow2(k), x % Pow2(k));
    ModUnique(x * Pow2(s), x / Pow2(k), Pow2(s + k), x % Pow2(k) * Pow2(s));
  }

  /** Shifting left and right again keeps the lowest k bits. */
  lemma ShiftedBack(x: int, R: nat, k: nat)
    requires k <= R
    ensures Shr(Shl(x, R - k, R), R - k) == x % Pow2(k)
  {
    ModScale(x, R - k, k);
    ModUnique(x % Pow2(k) * Pow2(R - k), x % Pow2(k), Pow2(R - k), 0);
  }

  lemma SameRemainder(x: int, y: int, d: int, p: int)
    requires p > 0 && x == y + d * p
    ensures x % p == y % p
  {
    DivBounds(y, p);
    MulAdd(y / p, d, p);
    ModUnique(x, y / p + d, p, y % p);
  }

  /** Reducing modulo a higher power removes a multiple of the lower one. */
  lemma Reduced(x: int, R: nat, k: nat) returns (d: int)
    requires k <= R
    ensures x == x % Pow2(R) + d * Pow2(k)
  {
    Pow2Splits(k, R - k);
    DivBounds(x, Pow2(R));
    d := x / Pow2(R) * Pow2(R - k);
    MulAssoc(x / Pow2(R), Pow2(R - k), Pow2(k));
  }

  /** Reducing modulo a higher power first changes nothing. */
  lemma ModMod(x: int, R: nat, k: nat)
    requires k <= R
    ensures x % Pow2(R) % Pow2(k) == x % Pow2(k)
  {
    var d := Reduced(x, R, k);
    SameRemainder(x, x % Pow2(R), d, Pow2(k));
  }

  /** Equal modulo 2^R means equal modulo 2^k. */
  lemma SumMod(x: int, y: int, R: nat, k: nat)
    requires k <= R
    ensures (x % Pow2(R) + y) % Pow2(k) == (x + y) % Pow2(k)
  {
    var d := Reduced(x, R, k);
    SameRemainder(x + y, x % Pow2(R) + y, d, Pow2(k));
  }

  lemma SplitDivision(x: int, p: int, q: int, a: int, r: int, b: int, c: int)
    requires x == a * p + r && 0 <= r < p && a == b * q + c && 0 <= c < q
    ensures x == b * (q * p) + (c * p + r) && 0 <= c * p + r < q * p
  {
    MulAdd(b * q, c, p);
    MulAssoc(b, q, p);
    MulLe(0, c, p);
    MulLe(c + 1, q, p);
    MulAdd(c, 1, p);
  }

  /** Dividing the lowest k bits gives the bits from m to k. */
  lemma DivMod(x: int, k: nat, m: nat)
    requires m <= k
    ensures x % Pow2(k) / Pow2(m) == x / Pow2(m) % Pow2(k - m)
  {
    Pow2Splits(m, k - m);
    var p, q := Pow2(m), Pow2(k - m);
    var a, r := x / p, x % p;
    DivBounds(x, p);
    DivBounds(a, q);
    SplitDivision(x, p, q, a, r, a / q, a % q);
    ModUnique(x, a / q, Pow2(k), a % q * p + r);
    ModUnique(a % q * p + r, a % q, p, r);
  }

  /** k-bit numbers. */
  predicate Fits(a: int, k: nat, signed: bool)
    requires k > 0
  {
    if signed then 0 <= a + Pow2(k - 1) < Pow2(k) else 0 <= a < Pow2(k)
  }

  // ----- Masks -----

  /** MaskingBitsInRing: a secret r and its bits; a strict mask is below 2^m. */
  ghost predicate Mask(r: int, bits: seq<int>, m: nat) {
    Bits(bits) && |bits| == m && r % Pow2(m) == Value(bits, m)
  }

  ghost predicate StrictMask(r: int, bits: seq<int>, m: nat) {
    Bits(bits) && |bits| == m && r == Value(bits, m)
  }

  // ----- Comparison with zero -----

  /** The top bit of a sum of two k-bit numbers: the top bits and the carry of the lower ones. */
  lemma TopBit(cl: int, rl: int, ch: int, rh: int, m: nat)
    requires 0 <= cl < Pow2(m) && 0 <= rl < Pow2(m) && Bit(ch) && Bit(rh)
    ensures var u := (cl + rl) / Pow2(m);
            Bit(u) && (((cl + ch * Pow2(m)) + (rl + rh * Pow2(m))) % Pow2(m + 1) >= Pow2(m) <==> (ch + rh + u) % 2 == 1)
  {
    var p := Pow2(m);
    var u := if cl + rl < p then 0 else 1;
    ModUnique(cl + rl, u, p, cl + rl - u * p);
    var t := ch + rh + u;
    var e := cl + rl - u * p;
    BitTimes(ch, p);
    BitTimes(rh, p);
    BitTimes(u, p);
    MulAdd(ch + rh, u, p);
    MulAdd(ch, rh, p);
    TopOfSum(t, e, p);
  }

  lemma TopOfSum(t: int, e: int, p: int)
    requires 0 <= t <= 3 && 0 <= e < p
    ensures (t * p + e) % (2 * p) >= p <==> t % 2 == 1
  {
    var d, r := t / 2, t % 2;
    BitTimes(d, 2 * p);
    BitTimes(r, p);
    MulAdd(2 * d, r, p);
    ModUnique(t * p + e, d, 2 * p, r * p + e);
  }

  function XorBit(x: int, y: int): (r: int) {
    if x == y then 0 else 1
  }

  /** LtzRing without splitting: 1 exactly for negative numbers. */
  method LtzRing(aRing: int, k: nat, R: nat, rPrime: int, rBin: seq<int>, ghost a: int) returns (ltz: int)
    requires 2 <= k <= R && Mask(rPrime, rBin, k)
    requires Fits(a, k, true) && aRing == a % Pow2(R)
    ensures ltz == if a < 0 then 1 else 0
  {
    hide Value, Pow2;
    var m := k - 1;
    var shift := R - k;
    var tmp := aRing - rPrime;
    var cPrime := Shr(Shl(tmp, shift, R), shift);
    ShiftedBack(tmp, R, k);
    DivBounds(tmp, Pow2(k));
    var aBits := BitsOf(cPrime, m);
    var b := rBin[..m];
    ReversedBits(aBits);
    ReversedBits(b);
    var u := CarryOutRaw(Reversed(aBits), Reversed(b), 0);
    ltz := XorBit(XorBit(rBin[m], Shr(cPrime, m)), u);
    LtzIsRight(a, aRing, rPrime, rBin, k, R, cPrime, u);
  }

  lemma LtzIsRight(a: int, aRing: int, rPrime: int, rBin: seq<int>, k: nat, R: nat, cPrime: int, u: int)
    requires 2 <= k <= R && Mask(rPrime, rBin, k)
    requires Fits(a, k, true) && aRing == a % Pow2(R)
    requires cPrime == (aRing - rPrime) % Pow2(k)
    requires u == (cPrime % Pow2(k - 1) + Value(rBin[..k - 1], k - 1) + 0) / Pow2(k - 1)
    ensures XorBit(XorBit(rBin[k - 1], Shr(cPrime, k - 1)), u) == if a < 0 then 1 else 0
  {
    var m := k - 1;
    var p, c := Pow2(m), cPrime;
    var rl, rh, cl, ch := Value(rBin, m), rBin[m], c % p, c / p;
    ValueOfPrefix(rBin[..m], rBin, m);
    ValueRange(rBin, m);
    DivBounds(c, p);
    DivBounds(aRing - rPrime, Pow2(k));
    HighBit(c, p);
    TopBit(cl, rl, ch, rh, m);
    assert Value(rBin, k) == rl + rh * p;
    Unmasked(a, aRing, rPrime, c, Value(rBin, k), R, k);
    SignBit(a, p);
    XorOfThree(rh, ch, u);
  }

  lemma HighBit(c: int, p: int)
    requires 0 <= c < 2 * p
    ensures Bit(c / p)
  {
    ModUnique(c, if c < p then 0 else 1, p, if c < p then c else c - p);
  }

  lemma XorOfThree(x: int, y: int, z: int)
    requires Bit(x) && Bit(y) && Bit(z)
    ensures XorBit(XorBit(x, y), z) == (y + x + z) % 2
  {
  }

  /** Adding the mask's low bits to the opened number gives the low bits of a. */
  lemma Unmasked(a: int, aRing: int, rPrime: int, c: int, r: int, R: nat, k: nat)
    requires k <= R && aRing == a % Pow2(R) && c == (aRing - rPrime) % Pow2(k) && r == rPrime % Pow2(k)
    ensures (c + r) % Pow2(k) == a % Pow2(k)
  {
    var p := Pow2(k);
    SumMod(a, -rPrime, R, k);
    assert c == (a - rPrime) % p;
    DivBounds(a - rPrime, p);
    DivBounds(rPrime, p);
    var d, e := (a - rPrime) / p, rPrime / p;
    MulAdd(d, e, p);
    SameRemainder(a, c + r, d + e, p);
  }

  /** The top bit of k bits is the sign. */
  lemma SignBit(a: int, p: int)
    requires -p <= a < p
    ensures a % (2 * p) >= p <==> a < 0
  {
    ModUnique(a, if a < 0 then -1 else 0, 2 * p, if a < 0 then a + 2 * p else a);
  }

  // ----- Remainders -----

  /** Mod2mRing: the remainder modulo 2^m, as a number in 0..2^m - 1. */
  method Mod2mRing(aRing: int, m: nat, R: nat, rPrime: int, rBin: seq<int>, ghost a: int) returns (res: int)
    requires 1 <= m <= R && StrictMask(rPrime, rBin, m) && aRing == a % Pow2(R)
    ensures res == a % Pow2(m)
  {
    hide Value, Pow2;
    var shift := R - m;
    var tmp := aRing + rPrime;
    var cPrime := Shr(Shl(tmp, shift, R), shift);
    ShiftedBack(tmp, R, m);
    DivBounds(tmp, Pow2(m));
    SumMod(a, rPrime, R, m);
    var u := BitLTL(cPrime, rBin);
    res := u * Pow2(m) + cPrime - rPrime;
    ValueRange(rBin, m);
    TakenOff(a, rPrime, cPrime, Pow2(m));
    BitTimes(u, Pow2(m));
    ModUnique(cPrime, 0, Pow2(m), cPrime);
  }

  /** Taking a mask off modulo p. */
  lemma TakenOff(x: int, r: int, c: int, p: int)
    requires p > 0 && 0 <= r < p && c == (x + r) % p
    ensures x % p == (if c < r then p else 0) + c - r
  {
    DivBounds(x + r, p);
    var d := (x + r) / p;
    MulAdd(d - 1, 1, p);
    ModUnique(x, if c < r then d - 1 else d, p, if c < r then c - r + p else c - r);
  }

  // ----- Truncation -----

  /** TruncLeakyInRing: the quotient by 2^m of a number below 2^k; a signed number is moved up by 2^(k-1) first. */
  method TruncLeakyInRing(aRing: int, k: nat, m: nat, signed: bool, R: nat, r: int, rBits: seq<int>, ghost a: int)
    returns (res: int)
    requires m < k <= R && StrictMask(r, rBits, k - m) && aRing == a % Pow2(R)
    requires Fits(a, k, signed)
    ensures res == Ring(a / Pow2(m), R)
  {
    hide Value, Pow2, Shl, Shr;
    var nBits := k - m;
    var nShift := R - nBits;
    var moved := if signed then aRing + Pow2(k - 1) else aRing;
    ghost var up := if signed then a + Pow2(k - 1) else a;
    var shifted := Ring(Shl(moved, nShift - m, R) + Shl(r, nShift, R), R);
    var masked := Shr(shifted, nShift);
    MaskedQuotient(a, if signed then Pow2(k - 1) else 0, moved, r, R, k, m, shifted);
    ValueRange(rBits, nBits);
    MaskTakenOff(up, r, masked, k, m);
    var u := BitLTL(masked, rBits);
    res := u * Pow2(nBits) + masked - r;
    BitTimes(u, Pow2(nBits));
    if signed {
      MovedQuotient(a, k, m);
      res := res - Pow2(nBits - 1);
    }
    res := Ring(res, R);
  }

  /** The opened quotient without its mask. */
  lemma MaskTakenOff(up: int, r: int, masked: int, k: nat, m: nat)
    requires m < k && 0 <= up < Pow2(k) && 0 <= r < Pow2(k - m) && masked == (up / Pow2(m) + r) % Pow2(k - m)
    ensures masked >= 0 && masked % Pow2(k - m) == masked
    ensures up / Pow2(m) == (if masked < r then Pow2(k - m) else 0) + masked - r
  {
    SmallQuotient(up, k, m);
    TakenOff(up / Pow2(m), r, masked, Pow2(k - m));
    DivBounds(up / Pow2(m) + r, Pow2(k - m));
    ModUnique(masked, 0, Pow2(k - m), masked);
    ModUnique(up / Pow2(m), 0, Pow2(k - m), up / Pow2(m));
  }

  lemma Doubled(k: nat)
    requires k > 0
    ensures Pow2(k) == 2 * Pow2(k - 1)
  {
  }

  lemma SmallQuotient(x: int, k: nat, m: nat)
    requires m <= k && 0 <= x < Pow2(k)
    ensures 0 <= x / Pow2(m) < Pow2(k - m)
  {
    DivMod(x, k, m);
    ModUnique(x, 0, Pow2(k), x);
    DivBounds(x / Pow2(m), Pow2(k - m));
  }

  /** Moving a number up by a multiple moves its quotient up. */
  lemma MovedQuotient(a: int, k: nat, m: nat)
    requires m < k
    ensures (a + Pow2(k - 1)) / Pow2(m) == a / Pow2(m) + Pow2(k - m - 1)
  {
    Pow2Splits(m, k - m - 1);
    DivBounds(a, Pow2(m));
    MulAdd(a / Pow2(m), Pow2(k - m - 1), Pow2(m));
    ModUnique(a + Pow2(k - 1), a / Pow2(m) + Pow2(k - m - 1), Pow2(m), a % Pow2(m));
  }

  /** What is opened: the quotient plus the mask, modulo 2^(k-m). */
  lemma MaskedQuotient(a: int, offset: int, moved: int, r: int, R: nat, k: nat, m: nat, shifted: int)
    requires m < k <= R && moved == a % Pow2(R) + offset
    requires shifted == Ring(Shl(moved, R - k, R) + Shl(r, R - (k - m), R), R)
    ensures Shr(shifted, R - (k - m)) == ((a + offset) / Pow2(m) + r) % Pow2(k - m)
  {
    var x := moved + r * Pow2(m);
    OpenedSum(moved, r, R, k, m);
    ModScale(x, R - k, k);
    DivScale(x % Pow2(k), R - k, m);
    DivMod(x, k, m);
    SumMod(a, offset + r * Pow2(m), R, k);
    DivMod(a + offset + r * Pow2(m), k, m);
    DivBounds(a + offset, Pow2(m));
    MulAdd((a + offset) / Pow2(m), r, Pow2(m));
    ModUnique(a + offset + r * Pow2(m), (a + offset) / Pow2(m) + r, Pow2(m), (a + offset) % Pow2(m));
  }

  lemma OpenedSum(moved: int, r: int, R: nat, k: nat, m: nat)
    requires m < k <= R
    ensures Ring(Shl(moved, R - k, R) + Shl(r, R - (k - m), R), R) == (moved + r * Pow2(m)) * Pow2(R - k) % Pow2(R)
  {
    var s, t := moved * Pow2(R - k), r * Pow2(R - (k - m));
    SumMod(s, Shl(r, R - (k - m), R), R, R);
    SumMod(t, s, R, R);
    Pow2Splits(R - k, m);
    MulAssoc(r, Pow2(m), Pow2(R - k));
    MulAdd(moved, r * Pow2(m), Pow2(R - k));
  }

  /** Shifting a scaled number right by more than the scale. */
  lemma DivScale(x: int, s: nat, m: nat)
    requires x >= 0
    ensures x * Pow2(s) / Pow2(s + m) == x / Pow2(m)
  {
    Pow2Splits(s, m);
    DivBounds(x, Pow2(m));
    ScaledDivision(x, Pow2(m), Pow2(s), x / Pow2(m), x % Pow2(m));
    ModUnique(x * Pow2(s), x / Pow2(m), Pow2(s + m), x % Pow2(m) * Pow2(s));
  }

  /** TruncRing without splitting: the quotient rounded down, for every pair of masks. */
  method TruncRing(aRing: int, k: nat, m: nat, signed: bool, R: nat, r1: int, bits1: seq<int>, r2: int, bits2: seq<int>,
                   ghost a: int)
    returns (res: int)
    requires 1 <= m < k <= R && StrictMask(r1, bits1, m) && StrictMask(r2, bits2, k - m) && aRing == a % Pow2(R)
    requires Fits(a, k, signed)
    ensures res == Ring(a / Pow2(m), R)
  {
    hide Value, Pow2;
    var aPrime := Mod2mRing(aRing, m, R, r1, bits1, a);
    var rounded := Ring(aRing - aPrime, R);
    RoundedDown(a, k, m, signed);
    SumMod(a, -aPrime, R, R);
    res := TruncLeakyInRing(rounded, k, m, signed, R, r2, bits2, a - a % Pow2(m));
  }

  lemma RoundedDown(a: int, k: nat, m: nat, signed: bool)
    requires m < k && Fits(a, k, signed)
    ensures (a - a % Pow2(m)) / Pow2(m) == a / Pow2(m)
    ensures Fits(a - a % Pow2(m), k, signed)
  {
    DivBounds(a, Pow2(m));
    ModUnique(a - a % Pow2(m), a / Pow2(m), Pow2(m), 0);
    if signed {
      Pow2Splits(m, k - m - 1);
      SameRemainder(a + Pow2(k - 1), a, Pow2(k - m - 1), Pow2(m));
      RemainderFits(a + Pow2(k - 1), Pow2(m));
    } else {
      RemainderFits(a, Pow2(m));
    }
  }

  lemma RemainderFits(x: int, p: int)
    requires x >= 0 && p > 0
    ensures 0 <= x % p <= x
  {
    DivBounds(x, p);
    if x < p {
      ModUnique(x, 0, p, x);
    }
  }

  // ----- Probabilistic truncation -----

  /** TruncPrRing with one bit to spare, masked by lower + upper * 2^m + msb * 2^k: the quotient of a + lower. */
  method TruncPrRing(aRing: int, k: nat, m: nat, signed: bool, R: nat, lower: nat, upper: nat, msb: int, ghost a: int)
    returns (res: int)
    requires m < k < R && lower < Pow2(m) && upper < Pow2(k - m) && Bit(msb)
    requires Fits(a, k, signed) && aRing == a % Pow2(R)
    ensures m > 0 ==> res == Ring((a + lower) / Pow2(m), R)
    ensures m == 0 ==> res == aRing
  {
    if m == 0 {
      return aRing;
    }
    hide Pow2, Shl, Shr;
    var moved := if signed then aRing + Pow2(k - 1) else aRing;
    ghost var up := if signed then a + Pow2(k - 1) else a;
    var r := msb * Pow2(k) + upper * Pow2(m) + lower;
    var nShift := R - (k + 1);
    var tmp := moved + r;
    var masked := Shl(tmp, nShift, R);
    var shifted := Shr(Shl(masked, 1, R), nShift + m + 1);
    var overflow := XorBit(msb, Shr(masked, R - 1));
    res := shifted - upper + overflow * Pow2(k - m);
    Doubled(k);
    SumMod(a, (if signed then Pow2(k - 1) else 0) + r, R, k + 1);
    OpenedParts(tmp, R, k, m);
    PrIsQuotient(up, lower, upper, msb, k, m, tmp);
    if signed {
      MovedQuotient(a + lower, k, m);
      res := res - Pow2(k - m - 1);
    }
    res := Ring(res, R);
  }

  /** What is opened: bits m to k - 1, and bit k. */
  lemma OpenedParts(tmp: int, R: nat, k: nat, m: nat)
    requires m < k < R
    ensures var masked := Shl(tmp, R - (k + 1), R);
            && Shr(Shl(masked, 1, R), R - (k + 1) + m + 1) == tmp % Pow2(k) / Pow2(m)
            && Shr(masked, R - 1) == tmp % Pow2(k + 1) / Pow2(k)
  {
    var s := R - (k + 1);
    var masked := Shl(tmp, s, R);
    ModScale(tmp, s, k + 1);
    DivBounds(tmp, Pow2(k + 1));
    DivScale(tmp % Pow2(k + 1), s, k);
    assert Shr(masked, R - 1) == tmp % Pow2(k + 1) / Pow2(k);
    Pow2Splits(s, 1);
    assert Pow2(1) == 2;
    MulAssoc(tmp % Pow2(k + 1), Pow2(s), 2);
    ModScale(tmp % Pow2(k + 1), s + 1, k);
    ModMod(tmp, k + 1, k);
    DivBounds(tmp, Pow2(k));
    DivScale(tmp % Pow2(k), s + 1, m);
  }

  /** The parts put together again. */
  lemma PrIsQuotient(up: int, lower: nat, upper: nat, msb: int, k: nat, m: nat, tmp: int)
    requires 0 < m < k && lower < Pow2(m) && upper < Pow2(k - m) && Bit(msb) && 0 <= up < Pow2(k)
    requires tmp % Pow2(k + 1) == (up + (msb * Pow2(k) + upper * Pow2(m) + lower)) % Pow2(k + 1)
    ensures var overflow := XorBit(msb, tmp % Pow2(k + 1) / Pow2(k));
            tmp % Pow2(k) / Pow2(m) - upper + overflow * Pow2(k - m) == (up + lower) / Pow2(m)
  {
    hide Pow2, XorBit;
    var p := Pow2(k);
    var t := up + lower + upper * Pow2(m);
    MaskBound(lower, upper, k, m);
    var o := if t < p then 0 else 1;
    BitTimes(msb, p);
    BitTimes(o, p);
    ModMod(tmp, k + 1, k);
    ModMod(t + msb * p, k + 1, k);
    SameRemainder(t + msb * p, t, msb, p);
    ModUnique(t, o, p, t - o * p);
    TopParts(t, msb, o, p, k);
    Pow2Splits(m, k - m);
    var q := Pow2(m);
    DivBounds(up + lower, q);
    var d := (up + lower) / q;
    MulAdd(d, upper, q);
    MulAssoc(o, Pow2(k - m), q);
    MulAdd(d + upper, 0 - o * Pow2(k - m), q);
    ModUnique(t - o * p, d + upper - o * Pow2(k - m), q, (up + lower) % q);
  }

  lemma MaskBound(lower: nat, upper: nat, k: nat, m: nat)
    requires m < k && lower < Pow2(m) && upper < Pow2(k - m)
    ensures 0 <= lower + upper * Pow2(m) < Pow2(k)
  {
    Pow2Splits(m, k - m);
    MulLe(0, upper, Pow2(m));
    MulLe(upper + 1, Pow2(k - m), Pow2(m));
    MulAdd(upper, 1, Pow2(m));
  }

  /** Bit k of the masked number, compared with the mask's, tells the overflow. */
  lemma TopParts(t: int, msb: int, o: int, p: int, k: nat)
    requires p == Pow2(k) && Bit(msb) && Bit(o) && o * p <= t < o * p + p
    ensures XorBit(msb, (t + msb * p) % Pow2(k + 1) / Pow2(k)) == o
  {
    var top := XorBit(msb, o);
    BitTimes(msb, p);
    BitTimes(o, p);
    BitTimes(top, p);
    var rest := t - o * p;
    ModUnique(t + msb * p, if msb + o == 2 then 1 else 0, Pow2(k + 1), top * p + rest);
    ModUnique(top * p + rest, top, p, rest);
  }

  /** The result is the quotient of a rounded up. */
  predicate RoundsUp(a: int, m: nat, lower: nat) {
    (a + lower) / Pow2(m) == a / Pow2(m) + 1
  }

  ghost function RoundedUp(a: int, m: nat): set<nat> {
    set lower: nat | lower < Pow2(m) && RoundsUp(a, m, lower)
  }

  /** Exactly a mod 2^m of the 2^m values of `lower` round up, and the others round down. */
  lemma RoundingUp(a: int, m: nat)
    ensures |RoundedUp(a, m)| == a % Pow2(m)
    ensures forall lower: nat {:trigger RoundsUp(a, m, lower)} ::
      lower < Pow2(m) && !RoundsUp(a, m, lower) ==> (a + lower) / Pow2(m) == a / Pow2(m)
  {
    DivBounds(a, Pow2(m));
    var from := Pow2(m) - a % Pow2(m);
    forall lower: nat {:trigger RoundsUp(a, m, lower)} | lower < Pow2(m)
      ensures (RoundsUp(a, m, lower) <==> lower >= from) &&
        (!RoundsUp(a, m, lower) ==> (a + lower) / Pow2(m) == a / Pow2(m))
    {
      RoundingAt(a, m, lower);
    }
    assert RoundedUp(a, m) == Between(from, Pow2(m));
  }

  lemma RoundingAt(a: int, m: nat, lower: nat)
    requires lower < Pow2(m)
    ensures (a + lower) / Pow2(m) == a / Pow2(m) + if lower >= Pow2(m) - a % Pow2(m) then 1 else 0
  {
    var p := Pow2(m);
    DivBounds(a, p);
    MulAdd(a / p, 1, p);
    var up := lower >= p - a % p;
    ModUnique(a + lower, if up then a / p + 1 else a / p, p, if up then a % p + lower - p else a % p + lower);
  }

  ghost function Between(lo: nat, hi: nat): (r: set<nat>)
    requires lo <= hi
    ensures |r| == hi - lo && forall v :: v in r <==> lo <= v < hi
  {
    if lo == hi then {} else Between(lo, hi - 1) + {hi - 1}
  }
}
