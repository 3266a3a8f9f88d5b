/** Two-way exclusive-or sharing of input bits and of the labels that carry them. */
module ProbeResilient {
  import opened Blocks
  import opened GarbledCircuit

  ghost function Shares(bits: seq<bv8>, random: seq<bv8>): (s: seq<bv8>)
    requires |random| == |bits|
    ensures |s| == 2 * |bits|
  {
    if bits == [] then [] else
      var n := |bits| - 1;
      var r := random[n] & 1;
      Shares(bits[..n], random[..n]) + [r, r ^ (bits[n] & 1)]
  }

  lemma {:induction false} SharesAt(bits: seq<bv8>, random: seq<bv8>, i: nat)
    requires |random| == |bits| && i < |bits|
    ensures Shares(bits, random)[2 * i] == random[i] & 1
    ensures Shares(bits, random)[2 * i + 1] == (random[i] & 1) ^ (bits[i] & 1)
    decreases |bits|
  {
    if i < |bits| - 1 {
      SharesAt(bits[..|bits| - 1], random[..|bits| - 1], i);
    }
  }

  /** encode_shares: `random` supplies one generator output per bit. */
  method EncodeShares(bits: seq<bv8>, random: seq<bv8>) returns (shares: seq<bv8>)
    requires |random| == |bits|
    ensures shares == Shares(bits, random)
  {
    var s := new bv8[2 * |bits|];
    for i := 0 to |bits|
      invariant s[..2 * i] == Shares(bits[..i], random[..i])
    {
      var r := random[i] & 1;
      s[2 * i] := r;
      s[2 * i + 1] := r ^ (bits[i] & 1);
      assert bits[..i + 1][..i] == bits[..i] && random[..i + 1][..i] == random[..i];
      assert s[..2 * i + 2] == s[..2 * i] + [r, r ^ (bits[i] & 1)];
    }
    assert bits[..|bits|] == bits && random[..|bits|] == random;
    shares := s[..];
  }

  datatype ShareLabelPair = ShareLabelPair(s00: Block, s10: Block)

  /** make_share_labels */
  function MakeShareLabels(wire0: Block, delta: Block, random: Block): ShareLabelPair {
    var s00 := if Lsb(random) then Xor(random, delta) else random;
    ShareLabelPair(s00, Xor(wire0, s00))
  }

  /** reconstruct_label */
  function ReconstructLabel(lab0: Block, lab1: Block): Block {
    Xor(lab0, lab1)
  }

  lemma ShareBits(r: bv8, x: bv8)
    ensures ((r & 1) & 1 != 0) != (((r & 1) ^ (x & 1)) & 1 != 0) <==> x & 1 != 0
  {
  }

  /** The labels of the two shares of a bit combine to the label of the bit, whatever the randomness. */
  lemma SharesReconstruct(wire0: Block, delta: Block, random: Block, b0: bool, b1: bool)
    ensures var p := MakeShareLabels(wire0, delta, random);
            ReconstructLabel(Xor(p.s00, Times(b0, delta)), Xor(p.s10, Times(b1, delta)))
            == Xor(wire0, Times(b0 != b1, delta))
  {
    var p := MakeShareLabels(wire0, delta, random);
    XorSwap(p.s00, Times(b0, delta), p.s10, Times(b1, delta));
    TimesXor(b0, b1, delta);
    XorComm(wire0, p.s00);
    XorCancel(p.s00, wire0);
  }
}
