/** Half-gate garbling of boolean circuits with a fixed-key hash. */
module GarbledCircuit {
  import opened Blocks
  import opened Bytes

  // ----- Circuits -----

  datatype GateType = XOR | AND | INV

  datatype Gate = Gate(kind: GateType, in0: nat, in1: nat, out: nat) {
    predicate Reads(i: nat) {
      i == in0 || (i == in1 && kind != INV)
    }
  }

  /** nInput0 key bits, then nInput1 plaintext bits, come first among the wires. */
  datatype Circuit = Circuit(nWires: nat, nInput0: nat, nInput1: nat, gates: seq<Gate>, outputs: seq<nat>) {
    function NInputs(): nat {
      nInput0 + nInput1
    }

    ghost predicate WellFormed() {
      && NInputs() <= nWires
      && (forall g :: g in gates ==> g.in0 < nWires && g.in1 < nWires && g.out < nWires)
      && (forall i :: 0 <= i < |outputs| ==> outputs[i] < nWires)
    }

    /** A gate from number `first` up to but not including number `last` drives wire i. */
    ghost predicate Driven(i: nat, first: int, last: int)
      requires 0 <= first <= last <= |gates|
    {
      exists k :: first <= k < last && gates[k].out == i
    }

    /** No gate reads an input wire before the first gate that drives it. */
    ghost predicate InputsSettled() {
      forall n, i: nat {:trigger gates[n].Reads(i)} ::
        0 <= n < |gates| && i < NInputs() && gates[n].Reads(i) && Driven(i, n, |gates|) ==> Driven(i, 0, n)
    }

    /** After n gates the label of wire i is final: i is no input, or has been driven, or will never be. */
    ghost predicate Settled(n: nat, i: nat)
      requires n <= |gates|
    {
      i >= NInputs() || Driven(i, 0, n) || !Driven(i, n, |gates|)
    }
  }

  datatype Result<+T> = Ok(value: T) | BadInputSize

  // ----- Plain evaluation -----

  ghost predicate IsBits(s: seq<bv8>) {
    forall i :: 0 <= i < |s| ==> s[i] == 0 || s[i] == 1
  }

  ghost function PlainGate(g: Gate, w: seq<bv8>): (r: seq<bv8>)
    requires g.in0 < |w| && g.in1 < |w| && g.out < |w|
    ensures |r| == |w|
  {
    w[g.out := match g.kind
      case XOR => w[g.in0] ^ w[g.in1]
      case AND => w[g.in0] & w[g.in1]
      case INV => w[g.in0] ^ 1]
  }

  ghost function PlainGates(gates: seq<Gate>, w: seq<bv8>): (r: seq<bv8>)
    requires forall g :: g in gates ==> g.in0 < |w| && g.in1 < |w| && g.out < |w|
    ensures |r| == |w|
  {
    if gates == [] then w else
      var n := |gates| - 1;
      PlainGate(gates[n], PlainGates(gates[..n], w))
  }

  /** Input bits in place, every other wire 0. */
  ghost function PlainInputs(c: Circuit, bits: seq<bv8>): (w: seq<bv8>)
    requires c.WellFormed() && |bits| == c.NInputs()
    ensures |w| == c.nWires
  {
    seq(c.nWires, i requires 0 <= i < c.nWires => if i < |bits| then bits[i] & 1 else 0)
  }

  ghost function PlainOutputs(c: Circuit, bits: seq<bv8>): (out: seq<bv8>)
    requires c.WellFormed() && |bits| == c.NInputs()
    ensures |out| == |c.outputs|
  {
    var w := PlainGates(c.gates, PlainInputs(c, bits));
    seq(|c.outputs|, i requires 0 <= i < |c.outputs| => w[c.outputs[i]])
  }

  method LoadBits(c: Circuit, bits: seq<bv8>) returns (w: array<bv8>)
    requires c.WellFormed() && |bits| == c.NInputs()
    ensures fresh(w) && w[..] == PlainInputs(c, bits)
  {
    w := new bv8[c.nWires](_ => 0);
    for i := 0 to |bits|
      invariant forall k :: 0 <= k < w.Length ==> w[k] == if k < i then bits[k] & 1 else 0
    {
      w[i] := bits[i] & 1;
    }
  }

  method RunPlainGate(g: Gate, w: array<bv8>)
    requires g.in0 < w.Length && g.in1 < w.Length && g.out < w.Length
    modifies w
    ensures w[..] == PlainGate(g, old(w[..]))
  {
    match g.kind {
      case XOR => w[g.out] := w[g.in0] ^ w[g.in1];
      case AND => w[g.out] := w[g.in0] & w[g.in1];
      case INV => w[g.out] := w[g.in0] ^ 1;
    }
  }

  /** eval_circuit_plain. */
  method EvalCircuitPlain(c: Circuit, bits: seq<bv8>) returns (r: Result<seq<bv8>>)
    requires c.WellFormed()
    ensures r.Ok? <==> |bits| == c.NInputs()
    ensures r.Ok? ==> r.value == PlainOutputs(c, bits)
  {
    if |bits| != c.NInputs() {
      return BadInputSize;
    }
    var w := LoadBits(c, bits);
    ghost var start := PlainInputs(c, bits);
    for n := 0 to |c.gates|
      invariant w[..] == PlainGates(c.gates[..n], start)
    {
      var g := c.gates[n];
      assert c.gates[..n + 1] == c.gates[..n] + [g];
      assert g in c.gates;
      RunPlainGate(g, w);
    }
    assert c.gates[..|c.gates|] == c.gates;
    var out := new bv8[|c.outputs|](i requires 0 <= i < |c.outputs| reads w => w[c.outputs[i]]);
    return Ok(out[..]);
  }

  lemma {:induction false} PlainGatesAreBits(gates: seq<Gate>, w: seq<bv8>)
    requires forall g :: g in gates ==> g.in0 < |w| && g.in1 < |w| && g.out < |w|
    requires IsBits(w)
    ensures IsBits(PlainGates(gates, w))
  {
    if gates != [] {
      PlainGatesAreBits(gates[..|gates| - 1], w);
      assert gates[|gates| - 1] in gates;
    }
  }

  lemma PlainInputsAreBits(c: Circuit, bits: seq<bv8>)
    requires c.WellFormed() && |bits| == c.NInputs()
    ensures IsBits(PlainInputs(c, bits))
  {
    var w := PlainInputs(c, bits);
    forall i | 0 <= i < |w| ensures w[i] == 0 || w[i] == 1 {
      if i < |bits| {
        LowBit(bits[i]);
      }
    }
  }

  lemma LowBit(x: bv8)
    ensures x & 1 == 0 || x & 1 == 1
  {
  }

  // ----- Hashing -----

  /** The cast to u8. */
  function LowByte(n: nat): bv8 {
    ToByte(n % 256)
  }

  lemma LowBytesAgree(m: nat, n: nat)
    requires LowByte(m) == LowByte(n)
    ensures m % 256 == n % 256
  {
    ByteValue(m % 256);
    ByteValue(n % 256);
  }

  function XorByte(x: bv8, y: bv8): bv8 {
    x ^ y
  }

  /** The low 32 bits of the gate number go into bytes 8 to 11, the side of the gate into byte 12. */
  function Tweak(x: Block, gid: nat, t: bv8): Block {
    x[8 := XorByte(x[8], LowByte(gid))]
     [9 := XorByte(x[9], LowByte(gid / 256))]
     [10 := XorByte(x[10], LowByte(gid / 65536))]
     [11 := XorByte(x[11], LowByte(gid / 16777216))]
     [12 := XorByte(x[12], t)]
  }

  lemma XorCancels(x: bv8, y: bv8, z: bv8)
    requires XorByte(x, y) == XorByte(x, z)
    ensures y == z
  {
  }

  lemma SameTweak(x: Block, g: nat, t: bv8, h: nat, u: bv8)
    requires Tweak(x, g, t) == Tweak(x, h, u)
    ensures LowByte(g) == LowByte(h) && LowByte(g / 256) == LowByte(h / 256) && t == u
    ensures LowByte(g / 65536) == LowByte(h / 65536) && LowByte(g / 16777216) == LowByte(h / 16777216)
  {
    hide LowByte, XorByte;
    var p, q := Tweak(x, g, t), Tweak(x, h, u);
    assert p[8] == q[8] && p[9] == q[9] && p[10] == q[10] && p[11] == q[11] && p[12] == q[12];
    XorCancels(x[8], LowByte(g), LowByte(h));
    XorCancels(x[9], LowByte(g / 256), LowByte(h / 256));
    XorCancels(x[10], LowByte(g / 65536), LowByte(h / 65536));
    XorCancels(x[11], LowByte(g / 16777216), LowByte(h / 16777216));
    XorCancels(x[12], t, u);
  }

  lemma SameBytes(m: nat, n: nat, m1: nat, n1: nat)
    requires m / 256 == m1 && n / 256 == n1 && m1 == n1 && LowByte(m) == LowByte(n)
    ensures m == n
  {
    LowBytesAgree(m, n);
  }

  /** Different gates, and different sides of a gate, hash a label differently tweaked. */
  lemma TweakSeparates(x: Block, g: nat, t: bv8, h: nat, u: bv8)
    requires g < 0x1_0000_0000 && h < 0x1_0000_0000 && Tweak(x, g, t) == Tweak(x, h, u)
    ensures g == h && t == u
  {
    hide LowByte, Tweak;
    SameTweak(x, g, t, h, u);
    SameBytes(g / 16777216, h / 16777216, 0, 0);
    SameBytes(g / 65536, h / 65536, g / 16777216, h / 16777216);
    SameBytes(g / 256, h / 256, g / 65536, h / 65536);
    SameBytes(g, h, g / 256, h / 256);
  }

  function MmoHash(aes: Block -> Block, x: Block): Block {
    Xor(aes(x), x)
  }

  // ----- Garbling -----

  datatype AndGateTable = AndGateTable(T0: Block, T1: Block)

  datatype GarbleResult = GarbleResult(tables: seq<AndGateTable>, wire0: seq<Block>, delta: Block, outDecode: seq<bv8>)

  /** The wire labels and tables produced so far. */
  datatype Garbling = Garbling(wire0: seq<Block>, tables: seq<AndGateTable>)

  function LabelForBit(wire0: Block, delta: Block, bit: bv8): Block {
    if bit != 0 then Xor(wire0, delta) else wire0
  }

  /** The two table rows and the output zero-label of an AND gate with input zero-labels a0 and b0. */
  function GarbleAnd(aes: Block -> Block, delta: Block, id: nat, a0: Block, b0: Block): (AndGateTable, Block) {
    var a1, b1 := Xor(a0, delta), Xor(b0, delta);
    var pa, pb := Lsb(a0), Lsb(b0);
    var Ha0, Ha1 := MmoHash(aes, Tweak(a0, id, 0)), MmoHash(aes, Tweak(a1, id, 0));
    var Tg := Xor(Xor(Ha0, Ha1), Times(pb, delta));
    var wg0 := Xor(Ha0, Times(pa, Tg));
    var Hb0, Hb1 := MmoHash(aes, Tweak(b0, id, 1)), MmoHash(aes, Tweak(b1, id, 1));
    var Te := Xor(Xor(Hb0, Hb1), a0);
    var we0 := Xor(Hb0, Times(pb, Xor(Te, a0)));
    (AndGateTable(Tg, Te), Xor(wg0, we0))
  }

  /** The output label of an AND gate with active input labels wa and wb. */
  function EvalAnd(aes: Block -> Block, table: AndGateTable, id: nat, wa: Block, wb: Block): Block {
    var wg := Xor(MmoHash(aes, Tweak(wa, id, 0)), Times(Lsb(wa), table.T0));
    var we := Xor(MmoHash(aes, Tweak(wb, id, 1)), Times(Lsb(wb), Xor(table.T1, wa)));
    Xor(wg, we)
  }

  ghost function GarbleGate(aes: Block -> Block, delta: Block, g: Gate, s: Garbling): (r: Garbling)
    requires g.in0 < |s.wire0| && g.in1 < |s.wire0| && g.out < |s.wire0|
    ensures |r.wire0| == |s.wire0|
  {
    var a0, b0 := s.wire0[g.in0], s.wire0[g.in1];
    match g.kind
    case XOR => s.(wire0 := s.wire0[g.out := Xor(a0, b0)])
    case INV => s.(wire0 := s.wire0[g.out := Xor(a0, delta)])
    case AND =>
      var (table, w0) := GarbleAnd(aes, delta, |s.tables|, a0, b0);
      Garbling(s.wire0[g.out := w0], s.tables + [table])
  }

  ghost function GarbleGates(aes: Block -> Block, delta: Block, gates: seq<Gate>, wire0: seq<Block>): (r: Garbling)
    requires forall g :: g in gates ==> g.in0 < |wire0| && g.in1 < |wire0| && g.out < |wire0|
    ensures |r.wire0| == |wire0|
  {
    if gates == [] then Garbling(wire0, []) else
      var n := |gates| - 1;
      GarbleGate(aes, delta, gates[n], GarbleGates(aes, delta, gates[..n], wire0))
  }

  /** Input zero-labels are random with a clear signal bit, all others start as zero. */
  ghost function InputLabels(c: Circuit, delta: Block, random: seq<Block>): (w: seq<Block>)
    requires c.WellFormed() && |random| == c.NInputs()
    ensures |w| == c.nWires
  {
    seq(c.nWires, i requires 0 <= i < c.nWires =>
      if i < |random| then Xor(random[i], Times(Lsb(random[i]), delta)) else ZERO)
  }

  ghost function Garbled(c: Circuit, aes: Block -> Block, delta: Block, random: seq<Block>): (r: GarbleResult)
    requires c.WellFormed() && |random| == c.NInputs()
    ensures |r.wire0| == c.nWires && |r.outDecode| == |c.outputs|
  {
    var s := GarbleGates(aes, delta, c.gates, InputLabels(c, delta, random));
    GarbleResult(s.tables, s.wire0, delta,
                 seq(|c.outputs|, i requires 0 <= i < |c.outputs| => if Lsb(s.wire0[c.outputs[i]]) then 1 else 0))
  }

  /** make_delta: a random block whose signal bit is forced to 1. */
  function MakeDelta(random: Block): (d: Block)
    ensures Lsb(d)
    ensures forall i :: 1 <= i < 16 ==> d[i] == random[i]
  {
    OrOne(random[0]);
    random[0 := random[0] | 1]
  }

  lemma OrOne(x: bv8)
    ensures (x | 1) & 1 != 0
  {
  }

  method DrawInputLabels(c: Circuit, delta: Block, random: seq<Block>) returns (wire0: array<Block>)
    requires c.WellFormed() && |random| == c.NInputs()
    ensures fresh(wire0) && wire0[..] == InputLabels(c, delta, random)
  {
    wire0 := new Block[c.nWires](_ => ZERO);
    for i := 0 to |random|
      invariant forall k :: 0 <= k < wire0.Length ==>
                              wire0[k] == if k < i then Xor(random[k], Times(Lsb(random[k]), delta)) else ZERO
    {
      wire0[i] := random[i];
      XorZero(random[i]);
      if Lsb(wire0[i]) {
        wire0[i] := Xor(wire0[i], delta);
      }
    }
  }

  method GarbleAndGate(aes: Block -> Block, delta: Block, id: nat, a0: Block, b0: Block)
    returns (table: AndGateTable, w0: Block)
    ensures (table, w0) == GarbleAnd(aes, delta, id, a0, b0)
  {
    var a1, b1 := Xor(a0, delta), Xor(b0, delta);
    var pa, pb := Lsb(a0), Lsb(b0);
    var Ha0, Ha1 := MmoHash(aes, Tweak(a0, id, 0)), MmoHash(aes, Tweak(a1, id, 0));
    var Tg := Xor(Ha0, Ha1);
    XorZero(Tg);
    if pb { Tg := Xor(Tg, delta); }
    var wg0 := Ha0;
    XorZero(wg0);
    if pa { wg0 := Xor(wg0, Tg); }
    var Hb0, Hb1 := MmoHash(aes, Tweak(b0, id, 1)), MmoHash(aes, Tweak(b1, id, 1));
    var Te := Xor(Hb0, Hb1);
    Te := Xor(Te, a0);
    var we0 := Hb0;
    XorZero(we0);
    if pb { we0 := Xor(we0, Xor(Te, a0)); }
    table, w0 := AndGateTable(Tg, Te), Xor(wg0, we0);
  }

  /** garble_circuit: `random` supplies the blocks drawn from the generator, one per input wire. */
  method GarbleCircuit(c: Circuit, aes: Block -> Block, deltaSeed: Block, random: seq<Block>) returns (gr: GarbleResult)
    requires c.WellFormed() && |random| == c.NInputs()
    ensures gr == Garbled(c, aes, MakeDelta(deltaSeed), random)
  {
    var delta := MakeDelta(deltaSeed);
    var wire0 := DrawInputLabels(c, delta, random);
    ghost var start := InputLabels(c, delta, random);
    var tables: seq<AndGateTable> := [];
    for n := 0 to |c.gates|
      invariant Garbling(wire0[..], tables) == GarbleGates(aes, delta, c.gates[..n], start)
    {
      var g := c.gates[n];
      assert c.gates[..n + 1] == c.gates[..n] + [g];
      assert g in c.gates;
      match g.kind {
        case XOR => wire0[g.out] := Xor(wire0[g.in0], wire0[g.in1]);
        case INV => wire0[g.out] := Xor(wire0[g.in0], delta);
        case AND =>
          var table, w0 := GarbleAndGate(aes, delta, |tables|, wire0[g.in0], wire0[g.in1]);
          wire0[g.out] := w0;
          tables := tables + [table];
      }
      assert Garbling(wire0[..], tables) == GarbleGate(aes, delta, g, GarbleGates(aes, delta, c.gates[..n], start));
    }
    assert c.gates[..|c.gates|] == c.gates;
    var decode := new bv8[|c.outputs|](i requires 0 <= i < |c.outputs| reads wire0 =>
                                         if Lsb(wire0[c.outputs[i]]) then 1 else 0);
    gr := GarbleResult(tables, wire0[..], delta, decode[..]);
  }

  // ----- Evaluation -----

  ghost function AndCount(gates: seq<Gate>): nat {
    if gates == [] then 0 else AndCount(gates[..|gates| - 1]) + if gates[|gates| - 1].kind == AND then 1 else 0
  }

  ghost function EvalGate(aes: Block -> Block, tables: seq<AndGateTable>, g: Gate, id: nat,
                          w: seq<Block>): (r: seq<Block>)
    requires g.in0 < |w| && g.in1 < |w| && g.out < |w|
    requires g.kind == AND ==> id < |tables|
    ensures |r| == |w|
  {
    w[g.out := match g.kind
      case XOR => Xor(w[g.in0], w[g.in1])
      case INV => w[g.in0]
      case AND => EvalAnd(aes, tables[id], id, w[g.in0], w[g.in1])]
  }

  ghost function EvalGates(aes: Block -> Block, tables: seq<AndGateTable>, gates: seq<Gate>,
                           w: seq<Block>): (r: seq<Block>)
    requires forall g :: g in gates ==> g.in0 < |w| && g.in1 < |w| && g.out < |w|
    requires AndCount(gates) <= |tables|
    ensures |r| == |w|
  {
    if gates == [] then w else
      var n := |gates| - 1;
      EvalGate(aes, tables, gates[n], AndCount(gates[..n]), EvalGates(aes, tables, gates[..n], w))
  }

  ghost function ActiveInputs(c: Circuit, labels: seq<Block>): (w: seq<Block>)
    requires c.WellFormed() && |labels| == c.NInputs()
    ensures |w| == c.nWires
  {
    seq(c.nWires, i requires 0 <= i < c.nWires => if i < |labels| then labels[i] else ZERO)
  }

  ghost function EvalOutputs(c: Circuit, aes: Block -> Block, tables: seq<AndGateTable>,
                             labels: seq<Block>): (out: seq<Block>)
    requires c.WellFormed() && |labels| == c.NInputs() && AndCount(c.gates) <= |tables|
    ensures |out| == |c.outputs|
  {
    var w := EvalGates(aes, tables, c.gates, ActiveInputs(c, labels));
    seq(|c.outputs|, i requires 0 <= i < |c.outputs| => w[c.outputs[i]])
  }

  lemma {:induction false} AndCountMonotone(gates: seq<Gate>, n: nat)
    requires n <= |gates|
    ensures AndCount(gates[..n]) <= AndCount(gates)
    decreases |gates|
  {
    if n == |gates| {
      assert gates[..n] == gates;
    } else {
      AndCountMonotone(gates[..|gates| - 1], n);
      assert gates[..|gates| - 1][..n] == gates[..n];
    }
  }

  method EvalAndGate(aes: Block -> Block, table: AndGateTable, id: nat, wa: Block, wb: Block) returns (w: Block)
    ensures w == EvalAnd(aes, table, id, wa, wb)
  {
    var wg := MmoHash(aes, Tweak(wa, id, 0));
    XorZero(wg);
    if Lsb(wa) { wg := Xor(wg, table.T0); }
    var we := MmoHash(aes, Tweak(wb, id, 1));
    XorZero(we);
    if Lsb(wb) { we := Xor(we, Xor(table.T1, wa)); }
    w := Xor(wg, we);
  }

  method LoadLabels(c: Circuit, labels: seq<Block>) returns (w: array<Block>)
    requires c.WellFormed() && |labels| == c.NInputs()
    ensures fresh(w) && w[..] == ActiveInputs(c, labels)
  {
    w := new Block[c.nWires](_ => ZERO);
    for i := 0 to |labels|
      invariant forall k :: 0 <= k < w.Length ==> w[k] == if k < i then labels[k] else ZERO
    {
      w[i] := labels[i];
    }
  }

  method RunGate(aes: Block -> Block, tables: seq<AndGateTable>, g: Gate, id: nat, w: array<Block>) returns (id': nat)
    requires g.in0 < w.Length && g.in1 < w.Length && g.out < w.Length && (g.kind == AND ==> id < |tables|)
    modifies w
    ensures w[..] == EvalGate(aes, tables, g, id, old(w[..]))
    ensures id' == id + if g.kind == AND then 1 else 0
  {
    id' := id;
    match g.kind {
      case XOR => w[g.out] := Xor(w[g.in0], w[g.in1]);
      case INV => w[g.out] := w[g.in0];
      case AND =>
        w[g.out] := EvalAndGate(aes, tables[id], id, w[g.in0], w[g.in1]);
        id' := id + 1;
    }
  }

  /** eval_circuit_labels: one table is used up per AND gate. */
  method EvalCircuitLabels(c: Circuit, aes: Block -> Block, tables: seq<AndGateTable>, labels: seq<Block>)
    returns (r: Result<seq<Block>>)
    requires c.WellFormed() && AndCount(c.gates) <= |tables|
    ensures r.Ok? <==> |labels| == c.NInputs()
    ensures r.Ok? ==> r.value == EvalOutputs(c, aes, tables, labels)
  {
    if |labels| != c.NInputs() {
      return BadInputSize;
    }
    hide EvalGate, ActiveInputs;
    var w := LoadLabels(c, labels);
    ghost var start := ActiveInputs(c, labels);
    var id := 0;
    for n := 0 to |c.gates|
      invariant id == AndCount(c.gates[..n]) <= |tables|
      invariant w[..] == EvalGates(aes, tables, c.gates[..n], start)
    {
      var g := c.gates[n];
      assert c.gates[..n + 1][..n] == c.gates[..n];
      assert g in c.gates;
      AndCountMonotone(c.gates, n + 1);
      id := RunGate(aes, tables, g, id, w);
    }
    assert c.gates[..|c.gates|] == c.gates;
    var out := new Block[|c.outputs|](i requires 0 <= i < |c.outputs| reads w => w[c.outputs[i]]);
    return Ok(out[..]);
  }

  /** decode_outputs: the signal bit of the label against the signal bit of the zero-label. */
  method DecodeOutputs(outDecode: seq<bv8>, labels: seq<Block>) returns (bits: seq<bv8>)
    requires |labels| <= |outDecode|
    ensures bits == Decoded(outDecode, labels)
  {
    var out := new bv8[|labels|](i requires 0 <= i < |labels| => (if Lsb(labels[i]) then 1 else 0) ^ outDecode[i]);
    bits := out[..];
  }

  ghost function Decoded(outDecode: seq<bv8>, labels: seq<Block>): (bits: seq<bv8>)
    requires |labels| <= |outDecode|
    ensures |bits| == |labels|
  {
    seq(|labels|, i requires 0 <= i < |labels| => (if Lsb(labels[i]) then 1 else 0) ^ outDecode[i])
  }

  // ----- Correctness -----

  /** The garbler's half gate: the evaluator obtains the zero-label shifted by va and the colour of b. */
  lemma GarblerHalf(delta: Block, H0: Block, H1: Block, pa: bool, pb: bool, va: bool)
    ensures var Tg := Xor(Xor(H0, H1), Times(pb, delta));
            Xor(if va then H1 else H0, Times(pa != va, Tg))
            == Xor(Xor(H0, Times(pa, Tg)), Times(va && pb, delta))
  {
    var d := Times(pb, delta);
    var Tg := Xor(Xor(H0, H1), d);
    XorZero(H0);
    XorZero(H1);
    XorZero(Xor(H0, Tg));
    if va {
      assert Times(va && pb, delta) == d;
      XorAssoc(H0, H1, d);
      XorComm(H0, H1);
      XorAssoc(H1, H0, d);
      XorCancel(H1, Xor(H0, d));
      XorCancel(H0, Xor(H1, d));
      XorCancel(H1, d);
    }
  }

  /** The evaluator's half gate: the evaluator obtains the zero-label shifted by va if b is coloured. */
  lemma EvaluatorHalf(delta: Block, H0: Block, H1: Block, a0: Block, pb: bool, va: bool, vb: bool)
    ensures var Te := Xor(Xor(H0, H1), a0);
            var wa := Xor(a0, Times(va, delta));
            Xor(if vb then H1 else H0, Times(pb != vb, Xor(Te, wa)))
            == Xor(Xor(H0, Times(pb, Xor(Te, a0))), Times(va && (pb != vb), delta))
  {
    var Te := Xor(Xor(H0, H1), a0);
    var d := Times(va, delta);
    var wa := Xor(a0, d);
    XorZero(H0);
    XorZero(H1);
    XorCancel(Xor(H0, H1), a0);
    XorCancel(H0, H1);
    XorComm(H0, H1);
    XorCancel(H1, H0);
    var we0 := if pb then H1 else H0;
    assert Xor(H0, Times(pb, Xor(Te, a0))) == we0;
    XorZero(we0);
    if pb != vb {
      XorAssoc(Te, a0, d);
      assert Xor(Te, wa) == Xor(Xor(H0, H1), d);
      var h := if vb then H1 else H0;
      XorAssoc(h, Xor(H0, H1), d);
      assert Xor(h, Xor(H0, H1)) == we0;
    }
  }

  /** The active label of an AND gate is the zero-label shifted by the conjunction of the inputs,
      whatever the hash function does. */
  lemma AndGateCorrect(aes: Block -> Block, delta: Block, id: nat, a0: Block, b0: Block, va: bool, vb: bool)
    requires Lsb(delta)
    ensures var (table, w0) := GarbleAnd(aes, delta, id, a0, b0);
            EvalAnd(aes, table, id, Xor(a0, Times(va, delta)), Xor(b0, Times(vb, delta)))
            == Xor(w0, Times(va && vb, delta))
  {
    var wa, wb := Xor(a0, Times(va, delta)), Xor(b0, Times(vb, delta));
    var pa, pb := Lsb(a0), Lsb(b0);
    XorZero(a0);
    XorZero(b0);
    ZeroLsb();
    XorLsb(a0, Times(va, delta));
    XorLsb(b0, Times(vb, delta));
    var Ha0, Ha1 := MmoHash(aes, Tweak(a0, id, 0)), MmoHash(aes, Tweak(Xor(a0, delta), id, 0));
    var Hb0, Hb1 := MmoHash(aes, Tweak(b0, id, 1)), MmoHash(aes, Tweak(Xor(b0, delta), id, 1));
    GarblerHalf(delta, Ha0, Ha1, pa, pb, va);
    EvaluatorHalf(delta, Hb0, Hb1, a0, pb, va, vb);
    var Tg, Te := Xor(Xor(Ha0, Ha1), Times(pb, delta)), Xor(Xor(Hb0, Hb1), a0);
    var wg0, we0 := Xor(Ha0, Times(pa, Tg)), Xor(Hb0, Times(pb, Xor(Te, a0)));
    XorSwap(wg0, Times(va && pb, delta), we0, Times(va && (pb != vb), delta));
    TimesXor(va && pb, va && (pb != vb), delta);
  }

  /** The active label of wire i is its zero-label shifted by its value. */
  ghost predicate Carries(delta: Block, wire0: seq<Block>, v: seq<bv8>, w: seq<Block>, i: nat)
    requires |wire0| == |v| == |w| && i < |w|
  {
    w[i] == Xor(wire0[i], Times(v[i] == 1, delta))
  }

  /** If the wires a gate reads carry their values, so does the wire it drives. */
  lemma GateCarries(aes: Block -> Block, delta: Block, g: Gate, s: Garbling, v: seq<bv8>, w: seq<Block>,
                    tables: seq<AndGateTable>)
    requires Lsb(delta) && IsBits(v) && |s.wire0| == |v| == |w|
    requires g.in0 < |w| && g.in1 < |w| && g.out < |w|
    requires forall i: nat | i < |w| && g.Reads(i) :: Carries(delta, s.wire0, v, w, i)
    requires GarbleGate(aes, delta, g, s).tables <= tables
    ensures Carries(delta, GarbleGate(aes, delta, g, s).wire0, PlainGate(g, v), EvalGate(aes, tables, g, |s.tables|, w),
                    g.out)
  {
    hide Xor;
    var a0, b0 := s.wire0[g.in0], s.wire0[g.in1];
    var va, vb := v[g.in0] == 1, v[g.in1] == 1;
    assert Carries(delta, s.wire0, v, w, g.in0);
    match g.kind {
      case XOR =>
        assert Carries(delta, s.wire0, v, w, g.in1);
        XorSwap(a0, Times(va, delta), b0, Times(vb, delta));
        TimesXor(va, vb, delta);
      case INV =>
        XorAssoc(a0, delta, Times(!va, delta));
        TimesXor(true, !va, delta);
      case AND =>
        assert Carries(delta, s.wire0, v, w, g.in1);
        AndGateCorrect(aes, delta, |s.tables|, a0, b0, va, vb);
        assert tables[|s.tables|] == GarbleAnd(aes, delta, |s.tables|, a0, b0).0;
    }
  }

  lemma {:induction false} TablesMatchAnds(aes: Block -> Block, delta: Block, gates: seq<Gate>, wire0: seq<Block>)
    requires forall g :: g in gates ==> g.in0 < |wire0| && g.in1 < |wire0| && g.out < |wire0|
    ensures |GarbleGates(aes, delta, gates, wire0).tables| == AndCount(gates)
  {
    if gates != [] {
      TablesMatchAnds(aes, delta, gates[..|gates| - 1], wire0);
    }
  }

  /** What is not driven by the next gate was settled before it. */
  lemma SettledBefore(c: Circuit, n: nat, i: nat)
    requires n < |c.gates| && i != c.gates[n].out && c.Settled(n + 1, i)
    ensures c.Settled(n, i)
  {
    if c.Driven(i, 0, n + 1) {
      var k :| 0 <= k < n + 1 && c.gates[k].out == i;
      assert k < n;
    } else if c.Driven(i, n, |c.gates|) {
      var k :| n <= k < |c.gates| && c.gates[k].out == i;
      assert n + 1 <= k;
    }
  }

  /** Garbler and evaluator agree on every settled wire after every gate, their AND counters in step. */
  lemma {:induction false} GatesCarry(c: Circuit, aes: Block -> Block, delta: Block, n: nat, wire0: seq<Block>,
                                      v: seq<bv8>, w: seq<Block>, tables: seq<AndGateTable>)
    requires c.WellFormed() && c.InputsSettled() && n <= |c.gates|
    requires Lsb(delta) && IsBits(v) && |wire0| == |v| == |w| == c.nWires
    requires forall i: nat | i < c.nWires && c.Settled(0, i) :: Carries(delta, wire0, v, w, i)
    requires GarbleGates(aes, delta, c.gates[..n], wire0).tables <= tables
    ensures AndCount(c.gates[..n]) <= |tables|
    ensures forall i: nat | i < c.nWires && c.Settled(n, i) ::
              Carries(delta, GarbleGates(aes, delta, c.gates[..n], wire0).wire0, PlainGates(c.gates[..n], v),
                      EvalGates(aes, tables, c.gates[..n], w), i)
  {
    TablesMatchAnds(aes, delta, c.gates[..n], wire0);
    if n > 0 {
      var g, gs := c.gates[n - 1], c.gates[..n - 1];
      assert c.gates[..n][..n - 1] == gs;
      assert g in c.gates;
      var s := GarbleGates(aes, delta, gs, wire0);
      GatesCarry(c, aes, delta, n - 1, wire0, v, w, tables);
      TablesMatchAnds(aes, delta, gs, wire0);
      PlainGatesAreBits(gs, v);
      GateCarries(aes, delta, g, s, PlainGates(gs, v), EvalGates(aes, tables, gs, w), tables);
      forall i: nat | i < c.nWires && c.Settled(n, i) && i != g.out ensures c.Settled(n - 1, i) {
        SettledBefore(c, n - 1, i);
      }
    }
  }

  lemma {:induction false} InputKept(c: Circuit, aes: Block -> Block, delta: Block, n: nat, wire0: seq<Block>, i: nat)
    requires c.WellFormed() && n <= |c.gates| && |wire0| == c.nWires
    requires i < |wire0| && !c.Driven(i, 0, |c.gates|)
    ensures GarbleGates(aes, delta, c.gates[..n], wire0).wire0[i] == wire0[i]
  {
    if n > 0 {
      assert c.gates[..n][..n - 1] == c.gates[..n - 1];
      assert c.gates[n - 1] in c.gates;
      InputKept(c, aes, delta, n - 1, wire0, i);
    }
  }

  /** The labels for the given input bits, chosen from the zero-labels the garbler ends up with. */
  ghost predicate ActiveLabels(gr: GarbleResult, bits: seq<bv8>, labels: seq<Block>) {
    && |labels| == |bits| <= |gr.wire0|
    && forall i :: 0 <= i < |bits| ==> labels[i] == LabelForBit(gr.wire0[i], gr.delta, bits[i] & 1)
  }

  lemma DecodeBit(z: Block, delta: Block, v: bv8)
    requires Lsb(delta) && (v == 0 || v == 1)
    ensures (if Lsb(Xor(z, Times(v == 1, delta))) then 1 else 0) ^ (if Lsb(z) then 1 else 0) == v
  {
    ZeroLsb();
    XorLsb(z, Times(v == 1, delta));
    var l: bv8, r: bv8 := if Lsb(z) != (v == 1) then 1 else 0, if Lsb(z) then 1 else 0;
    assert l ^ r == v;
  }

  /** Wires that need no later gate to settle them carry their values from the start. */
  lemma InputsCarry(c: Circuit, aes: Block -> Block, delta: Block, random: seq<Block>, bits: seq<bv8>,
                    labels: seq<Block>, i: nat)
    requires c.WellFormed() && |random| == |bits| == c.NInputs()
    requires ActiveLabels(Garbled(c, aes, delta, random), bits, labels)
    requires i < c.nWires && c.Settled(0, i)
    ensures Carries(delta, InputLabels(c, delta, random), PlainInputs(c, bits), ActiveInputs(c, labels), i)
  {
    var start := InputLabels(c, delta, random);
    XorZero(start[i]);
    if i < |bits| {
      assert c.gates[..|c.gates|] == c.gates;
      InputKept(c, aes, delta, |c.gates|, start, i);
      LowBit(bits[i]);
    }
  }

  /** Evaluating the garbled circuit on the labels of the inputs and decoding gives the plain result, for every
      circuit that reads no input wire before driving it, every hash and every offset with signal bit 1. In
      particular for every circuit that leaves its input wires alone. */
  lemma GarblingIsCorrect(c: Circuit, aes: Block -> Block, delta: Block, random: seq<Block>, bits: seq<bv8>,
                          labels: seq<Block>)
    requires c.WellFormed() && c.InputsSettled() && Lsb(delta)
    requires |random| == |bits| == c.NInputs()
    requires ActiveLabels(Garbled(c, aes, delta, random), bits, labels)
    ensures var gr := Garbled(c, aes, delta, random);
            && AndCount(c.gates) == |gr.tables|
            && Decoded(gr.outDecode, EvalOutputs(c, aes, gr.tables, labels)) == PlainOutputs(c, bits)
  {
    var gr := Garbled(c, aes, delta, random);
    var start := InputLabels(c, delta, random);
    var v, w := PlainInputs(c, bits), ActiveInputs(c, labels);
    PlainInputsAreBits(c, bits);
    TablesMatchAnds(aes, delta, c.gates, start);
    forall i: nat | i < c.nWires && c.Settled(0, i) ensures Carries(delta, start, v, w, i) {
      InputsCarry(c, aes, delta, random, bits, labels, i);
    }
    assert c.gates[..|c.gates|] == c.gates;
    GatesCarry(c, aes, delta, |c.gates|, start, v, w, gr.tables);
    PlainGatesAreBits(c.gates, v);
    var v', w' := PlainGates(c.gates, v), EvalGates(aes, gr.tables, c.gates, w);
    forall i | 0 <= i < |c.outputs|
      ensures (if Lsb(w'[c.outputs[i]]) then 1 else 0) ^ gr.outDecode[i] == v'[c.outputs[i]]
    {
      assert c.Settled(|c.gates|, c.outputs[i]);
      assert Carries(delta, gr.wire0, v', w', c.outputs[i]);
      DecodeBit(gr.wire0[c.outputs[i]], delta, v'[c.outputs[i]]);
    }
  }

  /** Two wires, the second of them both an input and the only output, under the given gates. */
  function OneOutput(gates: seq<Gate>): Circuit {
    Circuit(2, 1, 1, gates, [1])
  }

  /** Without the condition on input wires the result is wrong: here a gate negates input wire 1 in place, and the
      label of the input is chosen after that. */
  lemma OverwrittenInputDecodesWrongly(aes: Block -> Block, delta: Block, random: seq<Block>, labels: seq<Block>)
    requires Lsb(delta) && |random| == 2
    requires ActiveLabels(Garbled(OneOutput([Gate(INV, 1, 1, 1)]), aes, delta, random), [0, 0], labels)
    ensures var c := OneOutput([Gate(INV, 1, 1, 1)]);
            && c.WellFormed() && !c.InputsSettled()
            && AndCount(c.gates) <= 0
            && Decoded(Garbled(c, aes, delta, random).outDecode, EvalOutputs(c, aes, [], labels)) == [0]
            && PlainOutputs(c, [0, 0]) == [1]
  {
    var g := Gate(INV, 1, 1, 1);
    var c := OneOutput([g]);
    assert c.gates[..0] == [];
    assert g in c.gates;
    assert g.Reads(1) && c.gates[0] == g;
    assert c.Driven(1, 0, 1);
    var w := ActiveInputs(c, labels);
    assert EvalGates(aes, [], c.gates, w) == w[1 := w[1]] == w;
    assert PlainGates(c.gates, PlainInputs(c, [0, 0])) == PlainInputs(c, [0, 0])[1 := 1];
  }

  /** The condition is not necessary: a gate may read a stale label and undo the damage. Here input wire 1 is negated
      in place twice, which leaves its label as it was; a stale label may also go where no output depends on it. */
  lemma OverwrittenInputMayDecodeRight(aes: Block -> Block, delta: Block, random: seq<Block>, bits: seq<bv8>,
                                       labels: seq<Block>)
    requires Lsb(delta) && |random| == |bits| == 2
    requires ActiveLabels(Garbled(OneOutput([Gate(INV, 1, 1, 1), Gate(INV, 1, 1, 1)]), aes, delta, random), bits,
                          labels)
    ensures var c := OneOutput([Gate(INV, 1, 1, 1), Gate(INV, 1, 1, 1)]);
            && c.WellFormed() && !c.InputsSettled()
            && AndCount(c.gates) <= 0
            && Decoded(Garbled(c, aes, delta, random).outDecode, EvalOutputs(c, aes, [], labels)) ==
                 PlainOutputs(c, bits)
  {
    hide Xor;
    var g := Gate(INV, 1, 1, 1);
    var c := OneOutput([g, g]);
    assert c.gates[..1] == [g] && [g][..0] == [];
    assert g in c.gates;
    assert g.Reads(1) && c.gates[0] == g;
    assert c.Driven(1, 0, 2);
    var start, w, v := InputLabels(c, delta, random), ActiveInputs(c, labels), PlainInputs(c, bits);
    XorCancel(start[1], delta);
    assert GarbleGates(aes, delta, [g], start).wire0[1] == Xor(start[1], delta);
    assert Garbled(c, aes, delta, random).wire0[1] == Xor(Xor(start[1], delta), delta) == start[1];
    assert EvalGates(aes, [], [g], w) == w;
    assert EvalGates(aes, [], c.gates, w) == w;
    PlainInputsAreBits(c, bits);
    assert PlainGates([g], v)[1] == v[1] ^ 1;
    assert PlainGates(c.gates, v)[1] == v[1] ^ 1 ^ 1 == v[1];
    LowBit(bits[1]);
    XorZero(start[1]);
    DecodeBit(start[1], delta, v[1]);
  }
}
