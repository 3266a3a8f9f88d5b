/** Garbling without a dealer: the parties share their keys and PRF values and compute the rows with two rounds of
    multiplications. Shared values are modelled by the secret they stand for; the multiplication is any operation
    that multiplies correctly by the bits 0 and 1. */
module BmrMpc {
  import opened Blocks
  import opened BmrCircuit
  import opened BmrMessages

  /** An AND gate: its wires with the keys and masks, and its number. */
  datatype AndGate = AndGate(left: Wire, right: Wire, out: Wire, id: nat)

  ghost predicate GateOk(s: Setup, gate: AndGate) {
    WireOk(s, gate.left) && WireOk(s, gate.right) && WireOk(s, gate.out)
  }

  function Bit(b: bool): Key {
    if b then ONE else ZERO
  }

  lemma BitXor(x: bool, y: bool)
    ensures Xor(Bit(x), Bit(y)) == Bit(x != y)
  {
    XorSelf(ONE);
    XorZero(Bit(x));
    XorZero(Bit(y));
  }

  /** Multiplication with the two bits. */
  ghost predicate TimesBits(mul: (Key, Key) -> Key, k: Key) {
    mul(k, ZERO) == ZERO && mul(k, ONE) == k
  }

  ghost predicate MultipliesBits(mul: (Key, Key) -> Key) {
    forall k: Key {:trigger TimesBits(mul, k)} :: TimesBits(mul, k)
  }

  // ----- What a gate puts into the queues -----

  function Alpha(k: nat): bool {
    k / 2 == 1
  }

  function Beta(k: nat): bool {
    k % 2 == 1
  }

  /** Party i's PRF values for row k. */
  ghost function PrfRow(s: Setup, gate: AndGate, i: nat, k: nat): (row: seq<Key>)
    requires GateOk(s, gate) && i < s.n
    ensures |row| == s.n
  {
    var tuples := GateTuples(s, i, gate.left, gate.right, gate.id);
    seq(s.n, j requires 0 <= j < s.n => tuples[j].ForGarbling(Alpha(k), Beta(k)))
  }

  /** Party i's PRF values for the rows from k on. */
  ghost function PrfRows(s: Setup, gate: AndGate, i: nat, k: nat): seq<Key>
    requires GateOk(s, gate) && i < s.n
    decreases 4 - k
  {
    if k >= 4 then [] else PrfRow(s, gate, i, k) + PrfRows(s, gate, i, k + 1)
  }

  /** The product for the hidden key of row k and party j. */
  ghost function ProductRow(s: Setup, gate: AndGate, k: nat): (row: seq<Key>)
    requires GateOk(s, gate)
    ensures |row| == s.n
  {
    var h := Hidden(gate.left.mask, gate.right.mask, gate.out.mask, Alpha(k), Beta(k));
    seq(s.n, j requires 0 <= j < s.n => Times(h, s.Deltas()[j]))
  }

  ghost function ProductRows(s: Setup, gate: AndGate, k: nat): seq<Key>
    requires GateOk(s, gate)
    decreases 4 - k
  {
    if k >= 4 then [] else ProductRow(s, gate, k) + ProductRows(s, gate, k + 1)
  }

  /** The dealer's row k. */
  ghost function RowOf(s: Setup, gate: AndGate, k: nat): (row: seq<Key>)
    requires GateOk(s, gate)
    ensures |row| == s.n
  {
    Row(s, gate.left, gate.right, gate.out, gate.id, Alpha(k), Beta(k))
  }

  /** The dealer's rows up to k, one after the other. */
  ghost function RowsUpto(s: Setup, gate: AndGate, k: nat): seq<Key>
    requires GateOk(s, gate)
  {
    if k == 0 then [] else RowsUpto(s, gate, k - 1) + RowOf(s, gate, k - 1)
  }

  /** The four rows are those of the dealer's garbled gate. */
  lemma RowsAreDealers(s: Setup, gate: AndGate)
    requires GateOk(s, gate)
    ensures var rows := GateRows(s, gate.left, gate.right, gate.out, gate.id);
            RowsUpto(s, gate, 4) == rows[0] + rows[1] + rows[2] + rows[3]
  {
    hide Row;
    assert RowsUpto(s, gate, 1) == RowOf(s, gate, 0);
    assert RowsUpto(s, gate, 2) == RowOf(s, gate, 0) + RowOf(s, gate, 1);
    assert RowsUpto(s, gate, 3) == RowOf(s, gate, 0) + RowOf(s, gate, 1) + RowOf(s, gate, 2);
  }

  /** Party i's value adds its part of the padding. */
  lemma PaddingStep(s: Setup, gate: AndGate, k: nat, j: nat, i: nat)
    requires GateOk(s, gate) && i < s.n && j < s.n
    ensures PadOf(s, gate, k, j, i + 1) == Xor(PadOf(s, gate, k, j, i), PrfRow(s, gate, i, k)[j])
  {
  }

  ghost function PadOf(s: Setup, gate: AndGate, k: nat, j: nat, m: nat): Key
    requires GateOk(s, gate) && m <= s.n
  {
    Padding(s, gate.left.Keys(Alpha(k)), gate.right.Keys(Beta(k)), Alpha(k), Beta(k), gate.id, j, m)
  }

  /** One entry: padding, base key and product make the dealer's entry. */
  lemma EntryIsDealers(s: Setup, gate: AndGate, k: nat, j: nat, sum: Key)
    requires GateOk(s, gate) && j < s.n
    requires sum == PadOf(s, gate, k, j, s.n)
    ensures Xor(Xor(sum, gate.out.k0[j]), ProductRow(s, gate, k)[j]) == RowOf(s, gate, k)[j]
  {
    var h := Hidden(gate.left.mask, gate.right.mask, gate.out.mask, Alpha(k), Beta(k));
    var d := s.Deltas()[j];
    XorAssoc(sum, gate.out.k0[j], Times(h, d));
    XorZero(gate.out.k0[j]);
    assert Xor(gate.out.k0[j], Times(h, d)) == gate.out.Keys(h)[j];
  }

  /** The factor of the second multiplication is the bit that says which key is hidden. */
  lemma FactorIsHidden(u: bool, v: bool, w: bool, a: bool, b: bool)
    ensures Xor(Xor(Xor(Xor(Bit(u && v), Times(a, Bit(v))), Times(b, Bit(u))), Bit(a && b)), Bit(w)) ==
      Bit(Hidden(u, v, w, a, b))
  {
    assert Times(a, Bit(v)) == Bit(a && v) && Times(b, Bit(u)) == Bit(b && u);
    BitXor(u && v, a && v);
    BitXor((u && v) != (a && v), b && u);
    BitXor(((u && v) != (a && v)) != (b && u), a && b);
    BitXor((((u && v) != (a && v)) != (b && u)) != (a && b), w);
  }

  // ----- All messages of a run -----

  ghost predicate GatesOk(s: Setup, gates: seq<AndGate>) {
    |s.deltaSeeds| == s.n && forall t :: 0 <= t < |gates| ==> GateOk(s, gates[t])
  }

  /** Party i inputs one key and the PRF values of four rows for every gate. */
  ghost function InputMsg(s: Setup, gate: AndGate, i: nat): seq<Key>
    requires GateOk(s, gate) && i < s.n
  {
    [gate.out.k0[i]] + PrfRows(s, gate, i, 0)
  }

  ghost function InputMsgs(s: Setup, gates: seq<AndGate>, i: nat): (m: seq<seq<Key>>)
    requires GatesOk(s, gates) && i < s.n
    ensures |m| == |gates| && forall t {:trigger m[t]} :: 0 <= t < |m| ==> m[t] == InputMsg(s, gates[t], i)
  {
    seq(|gates|, t requires 0 <= t < |gates| => InputMsg(s, gates[t], i))
  }

  ghost function MaskProducts(gates: seq<AndGate>): (m: seq<seq<Key>>)
    ensures |m| == |gates| && forall t {:trigger m[t]} :: 0 <= t < |m| ==>
      m[t] == [Bit(gates[t].left.mask && gates[t].right.mask)]
  {
    seq(|gates|, t requires 0 <= t < |gates| => [Bit(gates[t].left.mask && gates[t].right.mask)])
  }

  ghost function KeyProducts(s: Setup, gates: seq<AndGate>): (m: seq<seq<Key>>)
    requires GatesOk(s, gates)
    ensures |m| == |gates| && forall t {:trigger m[t]} :: 0 <= t < |m| ==> m[t] == ProductRows(s, gates[t], 0)
  {
    seq(|gates|, t requires 0 <= t < |gates| => ProductRows(s, gates[t], 0))
  }

  /** The rows the dealer would make, gate after gate. */
  ghost function DealerRows(s: Setup, gates: seq<AndGate>): (m: seq<seq<Key>>)
    requires GatesOk(s, gates)
    ensures |m| == |gates| && forall t {:trigger m[t]} :: 0 <= t < |m| ==> m[t] == RowsUpto(s, gates[t], 4)
  {
    seq(|gates|, t requires 0 <= t < |gates| => RowsUpto(s, gates[t], 4))
  }

  datatype GarbleJob = GarbleJob(lambdaU: Key, lambdaV: Key, lambdaW: Key)

  function JobOf(gate: AndGate): GarbleJob {
    GarbleJob(Bit(gate.left.mask), Bit(gate.right.mask), Bit(gate.out.mask))
  }

  /** A FIFO of shared products. */
  class Protocol {
    const mul: (Key, Key) -> Key
    var results: seq<Key>

    constructor (mul: (Key, Key) -> Key)
      ensures this.mul == mul && results == []
    {
      this.mul := mul;
      results := [];
    }

    method PrepareMul(x: Key, y: Key)
      modifies this
      ensures results == old(results) + [mul(x, y)]
    {
      results := results + [mul(x, y)];
    }

    method FinalizeMul() returns (product: Key)
      requires results != []
      modifies this
      ensures product == old(results)[0] && results == old(results)[1..]
    {
      product := results[0];
      results := results[1..];
    }
  }

  /** Only queue i is different. */
  ghost predicate OnlyAt(before: seq<seq<Key>>, after: seq<seq<Key>>, i: nat) {
    |after| == |before| && forall q :: 0 <= q < |before| && q != i ==> after[q] == before[q]
  }

  /** Shared inputs: one FIFO for every party that inputs. */
  class Inputter {
    var queues: seq<seq<Key>>

    constructor (n: nat)
      ensures queues == seq(n, _ => [])
    {
      queues := seq(n, _ => []);
    }

    method AddFrom(i: nat, x: Key)
      requires i < |queues|
      modifies this
      ensures OnlyAt(old(queues), queues, i) && queues[i] == old(queues)[i] + [x]
    {
      queues := queues[i := queues[i] + [x]];
    }

    method Finalize(i: nat) returns (x: Key)
      requires i < |queues| && queues[i] != []
      modifies this
      ensures x == old(queues)[i][0] && OnlyAt(old(queues), queues, i) && queues[i] == old(queues)[i][1..]
    {
      x := queues[i][0];
      queues := queues[i := queues[i][1..]];
    }

    /** add_from_all for party i: its key and its PRF values, row by row. */
    method AddGate(s: Setup, i: nat, key: Key, tuples: seq<PrfTuple>, ghost gate: AndGate)
      requires GateOk(s, gate) && i < s.n && i < |queues| && key == gate.out.k0[i]
      requires tuples == GateTuples(s, i, gate.left, gate.right, gate.id)
      modifies this
      ensures OnlyAt(old(queues), queues, i) && queues[i] == old(queues)[i] + InputMsg(s, gate, i)
    {
      hide PrfRow, GateTuples;
      AddFrom(i, key);
      ghost var start := queues[i];
      for k := 0 to 4
        invariant OnlyAt(old(queues), queues, i)
        invariant queues[i] + PrfRows(s, gate, i, k) == start + PrfRows(s, gate, i, 0)
      {
        ghost var before := queues[i];
        AddRow(s, i, tuples, k, gate);
        assert queues[i] + PrfRows(s, gate, i, k + 1) == before + PrfRows(s, gate, i, k);
      }
      assert queues[i] == queues[i] + PrfRows(s, gate, i, 4);
    }

    method AddRow(s: Setup, i: nat, tuples: seq<PrfTuple>, k: nat, ghost gate: AndGate)
      requires GateOk(s, gate) && i < s.n && i < |queues|
      requires tuples == GateTuples(s, i, gate.left, gate.right, gate.id)
      modifies this
      ensures OnlyAt(old(queues), queues, i) && queues[i] == old(queues)[i] + PrfRow(s, gate, i, k)
    {
      for j := 0 to s.n
        invariant OnlyAt(old(queues), queues, i) && queues[i] == old(queues)[i] + PrfRow(s, gate, i, k)[..j]
      {
        AddFrom(i, tuples[j].ForGarbling(Alpha(k), Beta(k)));
      }
      assert PrfRow(s, gate, i, k)[..s.n] == PrfRow(s, gate, i, k);
    }

    /** One value of every party, added up: the padding of one entry. */
    method SumHeads(s: Setup, ghost gate: AndGate, ghost k: nat, ghost j: nat) returns (sum: Key)
      requires GateOk(s, gate) && |queues| == s.n && j < s.n
      requires forall i: nat :: i < s.n ==> queues[i] != [] && queues[i][0] == PrfRow(s, gate, i, k)[j]
      modifies this
      ensures sum == PadOf(s, gate, k, j, s.n)
      ensures |queues| == s.n && forall i: nat :: i < s.n ==> queues[i] == old(queues)[i][1..]
    {
      hide PrfRow, Xor;
      sum := ZERO;
      for i := 0 to s.n
        invariant |queues| == s.n
        invariant forall q: nat :: q < s.n ==> queues[q] == if q < i then old(queues)[q][1..] else old(queues)[q]
        invariant sum == PadOf(s, gate, k, j, i)
      {
        assert old(queues)[i][0] == PrfRow(s, gate, i, k)[j];
        var x := Finalize(i);
        sum := Xor(sum, x);
        PaddingStep(s, gate, k, j, i);
      }
    }

    /** The base keys of a gate. */
    method BaseKeys(s: Setup, ghost gate: AndGate) returns (keys: seq<Key>)
      requires GateOk(s, gate) && |queues| == s.n
      requires forall i: nat :: i < s.n ==> queues[i] != [] && queues[i][0] == gate.out.k0[i]
      modifies this
      ensures keys == gate.out.k0
      ensures |queues| == s.n && forall i: nat :: i < s.n ==> queues[i] == old(queues)[i][1..]
    {
      keys := [];
      for i := 0 to s.n
        invariant |queues| == s.n && keys == gate.out.k0[..i]
        invariant forall q: nat :: q < s.n ==> queues[q] == if q < i then old(queues)[q][1..] else old(queues)[q]
      {
        assert old(queues)[i][0] == gate.out.k0[i];
        var x := Finalize(i);
        keys := keys + [x];
      }
    }
  }

  // ----- One job -----

  /** middle_round: the factor times every party's offset, for all four rows. */
  method MiddleRound(s: Setup, job: GarbleJob, lambdaUV: Key, protocol: Protocol, ghost gate: AndGate)
    requires GateOk(s, gate) && MultipliesBits(protocol.mul)
    requires job == JobOf(gate) && lambdaUV == Bit(gate.left.mask && gate.right.mask)
    modifies protocol
    ensures protocol.results == old(protocol.results) + ProductRows(s, gate, 0)
  {
    hide ProductRow;
    ghost var start := protocol.results;
    for k := 0 to 4
      invariant protocol.results + ProductRows(s, gate, k) == start + ProductRows(s, gate, 0)
    {
      ghost var before := protocol.results;
      MiddleRow(s, job, lambdaUV, protocol, k, gate);
      assert protocol.results + ProductRows(s, gate, k + 1) == before + ProductRows(s, gate, k);
    }
    assert protocol.results == protocol.results + ProductRows(s, gate, 4);
  }

  method MiddleRow(s: Setup, job: GarbleJob, lambdaUV: Key, protocol: Protocol, k: nat, ghost gate: AndGate)
    requires GateOk(s, gate) && MultipliesBits(protocol.mul)
    requires job == JobOf(gate) && lambdaUV == Bit(gate.left.mask && gate.right.mask)
    modifies protocol
    ensures protocol.results == old(protocol.results) + ProductRow(s, gate, k)
  {
    hide Xor, Hidden;
    var factor := Xor(Xor(Xor(Xor(lambdaUV, Times(Alpha(k), job.lambdaV)), Times(Beta(k), job.lambdaU)),
                          Bit(Alpha(k) && Beta(k))),
                      job.lambdaW);
    FactorIsHidden(gate.left.mask, gate.right.mask, gate.out.mask, Alpha(k), Beta(k));
    for j := 0 to s.n
      invariant protocol.results == old(protocol.results) + ProductRow(s, gate, k)[..j]
    {
      assert TimesBits(protocol.mul, s.Deltas()[j]);
      protocol.PrepareMul(s.Deltas()[j], factor);
    }
    assert ProductRow(s, gate, k)[..s.n] == ProductRow(s, gate, k);
  }

  /** What the queues still hold for a gate from entry j of row k on, before the later gates' values. */
  ghost predicate Ahead(s: Setup, gate: AndGate, k: nat, j: nat, queues: seq<seq<Key>>, later: seq<seq<Key>>)
    requires GateOk(s, gate) && j <= s.n
  {
    |queues| == |later| == s.n
    && forall i: nat {:trigger queues[i]} :: i < s.n ==>
         queues[i] == PrfRow(s, gate, i, k)[j..] + PrfRows(s, gate, i, k + 1) + later[i]
  }

  lemma HeadsAhead(s: Setup, gate: AndGate, k: nat, j: nat, queues: seq<seq<Key>>, later: seq<seq<Key>>)
    requires GateOk(s, gate) && j < s.n && Ahead(s, gate, k, j, queues, later)
    ensures forall i: nat :: i < s.n ==> queues[i] != [] && queues[i][0] == PrfRow(s, gate, i, k)[j]
    ensures Ahead(s, gate, k, j + 1, seq(s.n, i requires 0 <= i < s.n => queues[i][1..]), later)
  {
    hide PrfRow, PrfRows;
    forall i: nat | i < s.n
      ensures queues[i] != [] && queues[i][0] == PrfRow(s, gate, i, k)[j]
      ensures queues[i][1..] == PrfRow(s, gate, i, k)[j + 1..] + PrfRows(s, gate, i, k + 1) + later[i]
    {
      assert queues[i] == PrfRow(s, gate, i, k)[j..] + PrfRows(s, gate, i, k + 1) + later[i];
      assert PrfRow(s, gate, i, k)[j..] == [PrfRow(s, gate, i, k)[j]] + PrfRow(s, gate, i, k)[j + 1..];
    }
  }

  /** last_round: four rows of padding, base keys and products. */
  method LastRow(s: Setup, inputter: Inputter, protocol: Protocol, baseKeys: seq<Key>, k: nat, ghost gate: AndGate,
                 ghost later: seq<seq<Key>>, ghost more: seq<Key>) returns (row: seq<Key>)
    requires GateOk(s, gate) && baseKeys == gate.out.k0 && Ahead(s, gate, k, 0, inputter.queues, later) &&
      |inputter.queues| == s.n
    requires protocol.results == ProductRow(s, gate, k) + more
    modifies inputter, protocol
    ensures row == RowOf(s, gate, k)
    ensures Ahead(s, gate, k, s.n, inputter.queues, later) && protocol.results == more
  {
    hide PrfRow, PrfRows, ProductRow, RowOf, Ahead, PadOf;
    row := [];
    for j := 0 to s.n
      invariant row == RowOf(s, gate, k)[..j]
      invariant Ahead(s, gate, k, j, inputter.queues, later) && |inputter.queues| == s.n
      invariant protocol.results == ProductRow(s, gate, k)[j..] + more
    {
      ghost var before := inputter.queues;
      HeadsAhead(s, gate, k, j, before, later);
      var wire := inputter.SumHeads(s, gate, k, j);
      assert inputter.queues == seq(s.n, i requires 0 <= i < s.n => before[i][1..]);
      var product := protocol.FinalizeMul();
      EntryIsDealers(s, gate, k, j, wire);
      row := row + [Xor(Xor(wire, baseKeys[j]), product)];
    }
  }

  /** What the queues hold for the rows from k on, before the later gates' values. */
  ghost predicate RowsAhead(s: Setup, gate: AndGate, k: nat, queues: seq<seq<Key>>, later: seq<seq<Key>>)
    requires GateOk(s, gate)
  {
    |queues| == |later| == s.n
    && forall i: nat {:trigger queues[i]} :: i < s.n ==> queues[i] == PrfRows(s, gate, i, k) + later[i]
  }

  lemma RowStarts(s: Setup, gate: AndGate, k: nat, queues: seq<seq<Key>>, later: seq<seq<Key>>)
    requires GateOk(s, gate) && k < 4 && RowsAhead(s, gate, k, queues, later)
    ensures Ahead(s, gate, k, 0, queues, later) && |queues| == s.n
  {
    hide PrfRow;
    forall i: nat {:trigger queues[i]} | i < s.n
      ensures queues[i] == PrfRow(s, gate, i, k)[0..] + PrfRows(s, gate, i, k + 1) + later[i]
    {
      assert PrfRow(s, gate, i, k)[0..] == PrfRow(s, gate, i, k);
    }
  }

  lemma RowEnds(s: Setup, gate: AndGate, k: nat, queues: seq<seq<Key>>, later: seq<seq<Key>>)
    requires GateOk(s, gate) && k < 4 && Ahead(s, gate, k, s.n, queues, later)
    ensures RowsAhead(s, gate, k + 1, queues, later)
  {
    hide PrfRow;
    forall i: nat {:trigger queues[i]} | i < s.n ensures queues[i] == PrfRows(s, gate, i, k + 1) + later[i] {
      assert PrfRow(s, gate, i, k)[s.n..] == [];
      assert [] + PrfRows(s, gate, i, k + 1) == PrfRows(s, gate, i, k + 1);
    }
  }

  lemma BaseKeyInFront(s: Setup, gate: AndGate, queues: seq<seq<Key>>, later: seq<seq<Key>>)
    requires GateOk(s, gate) && |queues| == |later| == s.n
    requires forall i: nat :: i < s.n ==> queues[i] == InputMsg(s, gate, i) + later[i]
    ensures forall i: nat :: i < s.n ==> queues[i] != [] && queues[i][0] == gate.out.k0[i]
    ensures RowsAhead(s, gate, 0, seq(s.n, i requires 0 <= i < s.n => queues[i][1..]), later)
  {
    hide PrfRows;
    forall i: nat | i < s.n
      ensures queues[i] != [] && queues[i][0] == gate.out.k0[i] && queues[i][1..] == PrfRows(s, gate, i, 0) + later[i]
    {
      assert queues[i] == [gate.out.k0[i]] + (PrfRows(s, gate, i, 0) + later[i]);
    }
  }

  method LastRound(s: Setup, inputter: Inputter, protocol: Protocol, ghost gate: AndGate, ghost later: seq<seq<Key>>,
                   ghost more: seq<Key>) returns (wires: seq<Key>)
    requires GateOk(s, gate) && |inputter.queues| == |later| == s.n
    requires forall i: nat :: i < s.n ==> inputter.queues[i] == InputMsg(s, gate, i) + later[i]
    requires protocol.results == ProductRows(s, gate, 0) + more
    modifies inputter, protocol
    ensures wires == RowsUpto(s, gate, 4)
    ensures inputter.queues == later && protocol.results == more
  {
    hide PrfRows, ProductRows, RowsUpto, RowsAhead, InputMsg;
    ghost var before := inputter.queues;
    BaseKeyInFront(s, gate, before, later);
    var baseKeys := inputter.BaseKeys(s, gate);
    assert inputter.queues == seq(s.n, i requires 0 <= i < s.n => before[i][1..]);
    wires := LastRows(s, inputter, protocol, baseKeys, gate, later, more);
  }

  method LastRows(s: Setup, inputter: Inputter, protocol: Protocol, baseKeys: seq<Key>, ghost gate: AndGate,
                  ghost later: seq<seq<Key>>, ghost more: seq<Key>) returns (wires: seq<Key>)
    requires GateOk(s, gate) && baseKeys == gate.out.k0 && RowsAhead(s, gate, 0, inputter.queues, later)
    requires protocol.results == ProductRows(s, gate, 0) + more
    modifies inputter, protocol
    ensures wires == RowsUpto(s, gate, 4)
    ensures inputter.queues == later && protocol.results == more
  {
    hide PrfRow, ProductRow, RowOf, Ahead, RowsAhead;
    wires := [];
    for k := 0 to 4
      invariant wires == RowsUpto(s, gate, k)
      invariant RowsAhead(s, gate, k, inputter.queues, later)
      invariant protocol.results == ProductRows(s, gate, k) + more
    {
      RowStarts(s, gate, k, inputter.queues, later);
      assert protocol.results == ProductRow(s, gate, k) + (ProductRows(s, gate, k + 1) + more);
      var row := LastRow(s, inputter, protocol, baseKeys, k, gate, later, ProductRows(s, gate, k + 1) + more);
      RowEnds(s, gate, k, inputter.queues, later);
      wires := wires + row;
    }
    NoRowsLeft(s, gate, inputter.queues, later);
    assert protocol.results == more;
  }

  lemma NoRowsLeft(s: Setup, gate: AndGate, queues: seq<seq<Key>>, later: seq<seq<Key>>)
    requires GateOk(s, gate) && RowsAhead(s, gate, 4, queues, later)
    ensures queues == later
  {
    forall i: nat | i < s.n ensures queues[i] == later[i] {
      assert queues[i] == [] + later[i];
    }
  }

  // ----- The run -----

  /** Every party's PRF values for every gate, as compute_prfs_outputs gives them. */
  ghost predicate PrfsOf(s: Setup, gates: seq<AndGate>, prfs: seq<seq<seq<PrfTuple>>>)
    requires GatesOk(s, gates)
  {
    |prfs| == |gates| && forall t: nat {:trigger prfs[t]} :: t < |gates| ==> PrfsOfGate(s, gates[t], prfs[t])
  }

  ghost predicate PrfsOfGate(s: Setup, gate: AndGate, prfs: seq<seq<PrfTuple>>)
    requires GateOk(s, gate)
  {
    |prfs| == s.n && forall i: nat :: i < s.n ==> prfs[i] == GateTuples(s, i, gate.left, gate.right, gate.id)
  }

  /** RealGarbleWire::garble at all parties: inputs, the product of the masks, and a job. */
  method GarbleGate(s: Setup, gate: AndGate, prfs: seq<seq<PrfTuple>>, inputter: Inputter, protocol: Protocol)
    returns (job: GarbleJob)
    requires GateOk(s, gate) && PrfsOfGate(s, gate, prfs) && |inputter.queues| == s.n && MultipliesBits(protocol.mul)
    modifies inputter, protocol
    ensures |inputter.queues| == s.n
    ensures forall i: nat :: i < s.n ==> inputter.queues[i] == old(inputter.queues)[i] + InputMsg(s, gate, i)
    ensures protocol.results == old(protocol.results) + [Bit(gate.left.mask && gate.right.mask)] && job == JobOf(gate)
  {
    hide InputMsg, GateTuples;
    for i := 0 to s.n
      invariant |inputter.queues| == s.n && protocol.results == old(protocol.results)
      invariant forall q: nat :: q < i ==> inputter.queues[q] == old(inputter.queues)[q] + InputMsg(s, gate, q)
      invariant forall q: nat :: i <= q < s.n ==> inputter.queues[q] == old(inputter.queues)[q]
    {
      inputter.AddGate(s, i, gate.out.k0[i], prfs[i], gate);
    }
    assert TimesBits(protocol.mul, Bit(gate.left.mask));
    assert protocol.mul(Bit(gate.left.mask), Bit(gate.right.mask)) == Bit(gate.left.mask && gate.right.mask);
    protocol.PrepareMul(Bit(gate.left.mask), Bit(gate.right.mask));
    job := JobOf(gate);
  }

  /** The first phase over all gates. */
  method FirstPhase(s: Setup, gates: seq<AndGate>, prfs: seq<seq<seq<PrfTuple>>>, inputter: Inputter,
                    protocol: Protocol)
    returns (jobs: seq<GarbleJob>)
    requires GatesOk(s, gates) && PrfsOf(s, gates, prfs) && MultipliesBits(protocol.mul)
    requires inputter.queues == seq(s.n, _ => []) && protocol.results == []
    modifies inputter, protocol
    ensures |inputter.queues| == s.n
    ensures forall i: nat :: i < s.n ==> inputter.queues[i] == Upto(InputMsgs(s, gates, i), |gates|)
    ensures protocol.results == Upto(MaskProducts(gates), |gates|)
    ensures |jobs| == |gates| && forall t :: 0 <= t < |gates| ==> jobs[t] == JobOf(gates[t])
  {
    hide InputMsg, PrfsOfGate, InputMsgs, MaskProducts, JobOf, Bit;
    jobs := [];
    for t := 0 to |gates|
      invariant |inputter.queues| == s.n
      invariant forall i: nat :: i < s.n ==> inputter.queues[i] == Upto(InputMsgs(s, gates, i), t)
      invariant protocol.results == Upto(MaskProducts(gates), t)
      invariant |jobs| == t && forall u :: 0 <= u < t ==> jobs[u] == JobOf(gates[u])
    {
      assert PrfsOfGate(s, gates[t], prfs[t]);
      var job := GarbleGate(s, gates[t], prfs[t], inputter, protocol);
      jobs := jobs + [job];
    }
  }

  method MiddleRounds(s: Setup, ghost gates: seq<AndGate>, jobs: seq<GarbleJob>, first: Protocol, second: Protocol)
    requires GatesOk(s, gates) && first != second && MultipliesBits(second.mul)
    requires |jobs| == |gates| && forall t :: 0 <= t < |gates| ==> jobs[t] == JobOf(gates[t])
    requires first.results == Rest(MaskProducts(gates), 0) && second.results == []
    modifies first, second
    ensures first.results == [] && second.results == Upto(KeyProducts(s, gates), |gates|)
  {
    hide ProductRows;
    for t := 0 to |jobs|
      invariant first.results == Rest(MaskProducts(gates), t) && second.results == Upto(KeyProducts(s, gates), t)
    {
      Consumed(first.results, MaskProducts(gates), t);
      var lambdaUV := first.FinalizeMul();
      MiddleRound(s, jobs[t], lambdaUV, second, gates[t]);
    }
  }

  ghost predicate Inputs(s: Setup, gates: seq<AndGate>, t: nat, queues: seq<seq<Key>>)
    requires GatesOk(s, gates)
  {
    |queues| == s.n && forall i: nat {:trigger queues[i]} :: i < s.n ==> queues[i] == Rest(InputMsgs(s, gates, i), t)
  }

  /** What the queues hold once gate t - 1 is done. */
  ghost function InputsLeft(s: Setup, gates: seq<AndGate>, t: nat): (queues: seq<seq<Key>>)
    requires GatesOk(s, gates) && t <= |gates|
    ensures Inputs(s, gates, t, queues)
  {
    seq(s.n, i requires 0 <= i < s.n => Rest(InputMsgs(s, gates, i), t))
  }

  lemma TurnStarts(s: Setup, gates: seq<AndGate>, t: nat, queues: seq<seq<Key>>)
    requires GatesOk(s, gates) && t < |gates| && Inputs(s, gates, t, queues)
    ensures var later := InputsLeft(s, gates, t + 1);
            |queues| == |later| == s.n && forall i: nat :: i < s.n ==> queues[i] == InputMsg(s, gates[t], i) + later[i]
    ensures Rest(KeyProducts(s, gates), t) == ProductRows(s, gates[t], 0) + Rest(KeyProducts(s, gates), t + 1)
  {
    hide ProductRows, InputMsg;
  }

  lemma TurnEnds(s: Setup, gates: seq<AndGate>, t: nat)
    requires GatesOk(s, gates) && t < |gates|
    ensures Upto(DealerRows(s, gates), t + 1) == Upto(DealerRows(s, gates), t) + RowsUpto(s, gates[t], 4)
  {
    hide RowsUpto;
  }

  method LastRounds(s: Setup, ghost gates: seq<AndGate>, jobs: seq<GarbleJob>, inputter: Inputter, second: Protocol)
    returns (wires: seq<Key>)
    requires GatesOk(s, gates) && |jobs| == |gates| && Inputs(s, gates, 0, inputter.queues)
    requires second.results == Rest(KeyProducts(s, gates), 0)
    modifies inputter, second
    ensures wires == Upto(DealerRows(s, gates), |gates|)
    ensures Inputs(s, gates, |gates|, inputter.queues) && second.results == []
  {
    hide ProductRows, RowsUpto, InputMsg, InputMsgs, KeyProducts, DealerRows, Inputs, InputsLeft, Upto;
    wires := [];
    assert Upto(DealerRows(s, gates), 0) == [] by { NothingYet(DealerRows(s, gates)); }
    for t := 0 to |jobs|
      invariant wires == Upto(DealerRows(s, gates), t)
      invariant Inputs(s, gates, t, inputter.queues) && second.results == Rest(KeyProducts(s, gates), t)
    {
      TurnStarts(s, gates, t, inputter.queues);
      TurnEnds(s, gates, t);
      var rows := LastRound(s, inputter, second, gates[t], InputsLeft(s, gates, t + 1),
                            Rest(KeyProducts(s, gates), t + 1));
      wires := wires + rows;
    }
  }

  lemma NothingYet<T>(msgs: seq<seq<T>>)
    ensures Upto(msgs, 0) == []
  {
  }

  /** For any gates and any multiplication: the opened values are the dealer's rows, and every value put into a queue
      has been taken out. */
  method Garble(s: Setup, gates: seq<AndGate>, prfs: seq<seq<seq<PrfTuple>>>, mul: (Key, Key) -> Key)
    returns (wires: seq<Key>, inputter: Inputter, first: Protocol, second: Protocol)
    requires GatesOk(s, gates) && PrfsOf(s, gates, prfs) && MultipliesBits(mul)
    ensures wires == Upto(DealerRows(s, gates), |gates|)
    ensures inputter.queues == seq(s.n, _ => []) && first.results == [] && second.results == []
  {
    hide InputMsg, ProductRows, RowsUpto, InputMsgs, KeyProducts, DealerRows, MaskProducts, Upto;
    inputter := new Inputter(s.n);
    first := new Protocol(mul);
    var jobs := FirstPhase(s, gates, prfs, inputter, first);
    second := new Protocol(mul);
    ProducedIsConsumed(MaskProducts(gates));
    MiddleRounds(s, gates, jobs, first, second);
    ProducedIsConsumed(KeyProducts(s, gates));
    forall i: nat | i < s.n ensures inputter.queues[i] == Rest(InputMsgs(s, gates, i), 0) {
      ProducedIsConsumed(InputMsgs(s, gates, i));
    }
    wires := LastRounds(s, gates, jobs, inputter, second);
  }

  // ----- Against the dealer -----

  /** The AND gates among the first i operations of a run, as the dealer's random phase makes their wires. */
  ghost function GatesOf(s: Run, i: nat): (gates: seq<AndGate>)
    requires i <= |s.prog|
    ensures GatesOk(s, gates)
  {
    if i == 0 then [] else
      GatesOf(s, i - 1) + if !s.prog[i - 1].And? then [] else
        [AndGate(LeftOf(s, i - 1), RightOf(s, i - 1), WireAt(s, i - 1), GateNumber(s, i - 1) + 1)]
  }

  ghost predicate FourRows(circuit: seq<GarbledGate>) {
    forall t :: 0 <= t < |circuit| ==> |circuit[t]| == 4
  }

  /** The rows of a garbled circuit, gate after gate. */
  ghost function RowsInOrder(circuit: seq<GarbledGate>): seq<Key>
    requires FourRows(circuit)
  {
    if circuit == [] then [] else
      var gate := circuit[|circuit| - 1];
      RowsInOrder(circuit[..|circuit| - 1]) + (gate[0] + gate[1] + gate[2] + gate[3])
  }

  lemma {:induction false} UptoOfPrefix<T>(msgs: seq<seq<T>>, longer: seq<seq<T>>, i: nat)
    requires i <= |msgs| && msgs <= longer
    ensures Upto(longer, i) == Upto(msgs, i)
  {
    if i > 0 {
      UptoOfPrefix(msgs, longer, i - 1);
    }
  }

  lemma LastDealerRows(s: Setup, gates: seq<AndGate>, gate: AndGate)
    requires GatesOk(s, gates) && GateOk(s, gate) && GatesOk(s, gates + [gate])
    ensures Upto(DealerRows(s, gates + [gate]), |gates| + 1)
         == Upto(DealerRows(s, gates), |gates|) + RowsUpto(s, gate, 4)
  {
    hide RowsUpto;
    var all := DealerRows(s, gates + [gate]);
    assert DealerRows(s, gates) == all[..|gates|];
    UptoOfPrefix(DealerRows(s, gates), all, |gates|);
  }

  lemma CircuitStep(s: Run, i: nat)
    requires i < |s.prog|
    ensures Upto(CircuitMsgs(s), i + 1) == Upto(CircuitMsgs(s), i) + if s.prog[i].And? then [GateOf(s, i)] else []
  {
    hide GateOf, CircuitMsgs;
    assert CircuitMsgs(s)[i] == CircuitMsg(s, i);
  }

  lemma RowsSnoc(circuit: seq<GarbledGate>, gate: GarbledGate)
    requires FourRows(circuit) && |gate| == 4
    ensures FourRows(circuit + [gate])
    ensures RowsInOrder(circuit + [gate]) == RowsInOrder(circuit) + (gate[0] + gate[1] + gate[2] + gate[3])
  {
    assert (circuit + [gate])[..|circuit|] == circuit;
  }

  /** Gate by gate, the rows opened without a dealer are the rows of the circuit the dealer garbles. */
  lemma {:induction false} GatesAreDealers(s: Run, i: nat)
    requires i <= |s.prog|
    ensures FourRows(Upto(CircuitMsgs(s), i))
    ensures Upto(DealerRows(s, GatesOf(s, i)), |GatesOf(s, i)|) == RowsInOrder(Upto(CircuitMsgs(s), i))
  {
    hide RowsUpto, GateOf, LeftOf, RightOf, WireAt, GateOk, DealerRows, CircuitMsgs, RowsInOrder, FourRows;
    if i == 0 {
      NoGates(s);
    } else {
      GatesAreDealers(s, i - 1);
      CircuitStep(s, i - 1);
      if s.prog[i - 1].And? {
        var gate := AndGate(LeftOf(s, i - 1), RightOf(s, i - 1), WireAt(s, i - 1), GateNumber(s, i - 1) + 1);
        GateIsDealers(s, i - 1, gate);
        LastDealerRows(s, GatesOf(s, i - 1), gate);
        RowsSnoc(Upto(CircuitMsgs(s), i - 1), GateOf(s, i - 1));
        assert GatesOf(s, i) == GatesOf(s, i - 1) + [gate];
      } else {
        assert GatesOf(s, i) == GatesOf(s, i - 1);
        assert Upto(CircuitMsgs(s), i) == Upto(CircuitMsgs(s), i - 1);
      }
    }
  }

  lemma NoGates(s: Run)
    ensures FourRows(Upto(CircuitMsgs(s), 0))
    ensures Upto(DealerRows(s, GatesOf(s, 0)), 0) == RowsInOrder(Upto(CircuitMsgs(s), 0)) == []
  {
  }

  lemma GateIsDealers(s: Run, i: nat, gate: AndGate)
    requires i < |s.prog| && s.prog[i].And?
    requires gate == AndGate(LeftOf(s, i), RightOf(s, i), WireAt(s, i), GateNumber(s, i) + 1)
    ensures GateOk(s, gate) && |GateOf(s, i)| == 4
    ensures var rows := GateOf(s, i); RowsUpto(s, gate, 4) == rows[0] + rows[1] + rows[2] + rows[3]
  {
    hide RowsUpto, LeftOf, RightOf, WireAt, Row;
    RowsAreDealers(s, gate);
  }

  /** A whole run garbled without a dealer opens exactly the circuit that the dealer's garbling phase sends out. */
  method GarbleRun(s: Run, gates: seq<AndGate>, prfs: seq<seq<seq<PrfTuple>>>, mul: (Key, Key) -> Key)
    returns (wires: seq<Key>)
    requires gates == GatesOf(s, |s.prog|) && PrfsOf(s, gates, prfs) && MultipliesBits(mul)
    ensures FourRows(Upto(CircuitMsgs(s), |s.prog|))
    ensures wires == RowsInOrder(Upto(CircuitMsgs(s), |s.prog|))
  {
    hide Upto, DealerRows, RowsInOrder, GatesOf, PrfsOf, CircuitMsgs;
    GatesAreDealers(s, |s.prog|);
    var inputter, first, second;
    wires, inputter, first, second := Garble(s, gates, prfs, mul);
  }
}
