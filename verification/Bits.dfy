/** Blocks as lists of bits, in the wire order of the circuit: wire 0 is the lowest bit
    of the last byte. */
module Bits {
  import opened Blocks

  function LowBits(x: bv8): (r: seq<bv8>)
    ensures |r| == 8
  {
    [x & 1, (x >> 1) & 1, (x >> 2) & 1, (x >> 3) & 1, (x >> 4) & 1, (x >> 5) & 1, (x >> 6) & 1, (x >> 7) & 1]
  }

  function Byte8(b0: bv8, b1: bv8, b2: bv8, b3: bv8, b4: bv8, b5: bv8, b6: bv8, b7: bv8): bv8 {
    (b0 & 1) | ((b1 & 1) << 1) | ((b2 & 1) << 2) | ((b3 & 1) << 3)
    | ((b4 & 1) << 4) | ((b5 & 1) << 5) | ((b6 & 1) << 6) | ((b7 & 1) << 7)
  }

  function ByteOf(b: seq<bv8>): bv8
    requires |b| == 8
  {
    Byte8(b[0], b[1], b[2], b[3], b[4], b[5], b[6], b[7])
  }

  function BytesToBits(s: seq<bv8>): (bits: seq<bv8>)
    ensures |bits| == 8 * |s|
  {
    if s == [] then [] else LowBits(s[|s| - 1]) + BytesToBits(s[..|s| - 1])
  }

  function BitsToBytes(bits: seq<bv8>): (s: seq<bv8>)
    requires |bits| % 8 == 0
    ensures |s| == |bits| / 8
  {
    if bits == [] then [] else BitsToBytes(bits[8..]) + [ByteOf(bits[..8])]
  }

  /** block_to_bits128 */
  function BlockToBits(x: Block): (bits: seq<bv8>)
    ensures |bits| == 128
  {
    BytesToBits(x)
  }

  /** bits128_to_block */
  function BitsToBlock(bits: seq<bv8>): Block
    requires |bits| == 128
  {
    BitsToBytes(bits)
  }

  lemma LowBitAt(x: bv8, l: nat)
    requires l < 8
    ensures LowBits(x)[l] == (x >> l) & 1
  {
  }

  /** Bit i of a list of bytes is bit i % 8 of the byte i / 8 from the end. */
  lemma {:induction false} BitAt(s: seq<bv8>, i: nat)
    requires i < 8 * |s|
    ensures BytesToBits(s)[i] == (s[|s| - 1 - i / 8] >> (i % 8)) & 1
    decreases |s|
  {
    if i < 8 {
      LowBitAt(s[|s| - 1], i);
    } else {
      BitAt(s[..|s| - 1], i - 8);
    }
  }

  /** Wire i of a block carries bit i % 8 of byte 15 - i / 8. */
  lemma BlockBit(x: Block, i: nat)
    requires i < 128
    ensures BlockToBits(x)[i] == (x[15 - i / 8] >> (i % 8)) & 1
  {
    BitAt(x, i);
  }

  lemma LowBitsOfByte(x: bv8)
    ensures ByteOf(LowBits(x)) == x
    ensures forall i :: 0 <= i < 8 ==> LowBits(x)[i] == 0 || LowBits(x)[i] == 1
  {
  }

  /** Bytes written out as bits and packed again are the same bytes. */
  lemma {:induction false} BytesRoundTrip(s: seq<bv8>)
    ensures BitsToBytes(BytesToBits(s)) == s
  {
    if s != [] {
      BytesRoundTrip(s[..|s| - 1]);
      LowBitsOfByte(s[|s| - 1]);
      var bits := BytesToBits(s);
      assert bits[..8] == LowBits(s[|s| - 1]) && bits[8..] == BytesToBits(s[..|s| - 1]);
    }
  }

  lemma {:induction false} BytesGiveBits(s: seq<bv8>, i: nat)
    requires i < 8 * |s|
    ensures BytesToBits(s)[i] == 0 || BytesToBits(s)[i] == 1
    decreases |s|
  {
    if i < 8 {
      LowBitsOfByte(s[|s| - 1]);
    } else {
      BytesGiveBits(s[..|s| - 1], i - 8);
    }
  }
}
