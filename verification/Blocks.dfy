/** 128-bit blocks as sixteen bytes, with bytewise exclusive or. */
module Blocks {

  type Block = s: seq<bv8> | |s| == 16 witness seq(16, _ => 0)

  const ZERO: Block := [0, 0, 0, 0, 0, 0, 0, 0, 0, 0, 0, 0, 0, 0, 0, 0]

  function Xor(a: Block, b: Block): (r: Block)
    ensures forall i :: 0 <= i < 16 ==> r[i] == a[i] ^ b[i]
  {
    seq(16, i requires 0 <= i < 16 => a[i] ^ b[i])
  }

  /** The signal bit: lowest bit of the first byte. */
  predicate Lsb(x: Block) {
    x[0] & 1 != 0
  }

  lemma XorComm(a: Block, b: Block)
    ensures Xor(a, b) == Xor(b, a)
  {
  }

  lemma ByteXorAssoc(a: bv8, b: bv8, c: bv8)
    ensures (a ^ b) ^ c == a ^ (b ^ c)
  {
  }

  lemma XorAssoc(a: Block, b: Block, c: Block)
    ensures Xor(Xor(a, b), c) == Xor(a, Xor(b, c))
  {
    var l, r := Xor(Xor(a, b), c), Xor(a, Xor(b, c));
    forall i | 0 <= i < 16 ensures l[i] == r[i] {
      ByteXorAssoc(a[i], b[i], c[i]);
    }
  }

  lemma XorZero(a: Block)
    ensures Xor(a, ZERO) == a && Xor(ZERO, a) == a
  {
  }

  lemma XorSelf(a: Block)
    ensures Xor(a, a) == ZERO
  {
  }

  lemma XorCancel(a: Block, b: Block)
    ensures Xor(Xor(a, b), b) == a
    ensures Xor(a, Xor(a, b)) == b
  {
    XorAssoc(a, b, b);
    XorAssoc(a, a, b);
    XorSelf(a);
    XorSelf(b);
    XorZero(a);
    XorZero(b);
  }

  /** (a + b) + (c + d) == (a + c) + (b + d). */
  lemma XorSwap(a: Block, b: Block, c: Block, d: Block)
    ensures Xor(Xor(a, b), Xor(c, d)) == Xor(Xor(a, c), Xor(b, d))
  {
    XorAssoc(a, b, Xor(c, d));
    XorAssoc(b, c, d);
    XorComm(b, c);
    XorAssoc(c, b, d);
    XorAssoc(a, c, Xor(b, d));
  }

  lemma ByteXorLow(a: bv8, b: bv8)
    ensures ((a ^ b) & 1 != 0) == ((a & 1 != 0) != (b & 1 != 0))
  {
  }

  lemma XorLsb(a: Block, b: Block)
    ensures Lsb(Xor(a, b)) == (Lsb(a) != Lsb(b))
  {
    ByteXorLow(a[0], b[0]);
  }

  lemma ZeroLsb()
    ensures !Lsb(ZERO)
  {
  }

  /** The block itself or nothing: the product of a bit and a block. */
  function Times(b: bool, x: Block): Block {
    if b then x else ZERO
  }

  lemma TimesXor(b: bool, c: bool, x: Block)
    ensures Xor(Times(b, x), Times(c, x)) == Times(b != c, x)
  {
    XorSelf(x);
    XorZero(x);
    XorZero(ZERO);
  }
}
