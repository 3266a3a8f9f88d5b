/** n-party BMR: what the dealer fixes for every wire, the messages of each phase, and the garbled rows. */
module BmrCircuit {
  import opened Blocks

  type Key = Block

  /** Register programs; the numbers are registers, `from` is the party an input bit comes from. */
  datatype Op =
    | And(out: nat, left: nat, right: nat)
    | XorGate(out: nat, left: nat, right: nat)
    | Input(out: nat, from: nat)
    | PublicInput(out: nat, value: bool)
    | RandomBit(out: nat)
    | Output(reg: nat)

  function Reads(op: Op): set<nat> {
    match op
    case And(_, l, r) => {l, r}
    case XorGate(_, l, r) => {l, r}
    case Output(r) => {r}
    case _ => {}
  }

  /** The register an operation writes; an output keeps its register as it is. */
  function Target(op: Op): nat {
    match op
    case And(o, _, _) => o
    case XorGate(o, _, _) => o
    case Input(o, _) => o
    case PublicInput(o, _) => o
    case RandomBit(o) => o
    case Output(r) => r
  }

  /** The registers written by the first i operations. */
  ghost function Assigned(prog: seq<Op>, i: nat): set<nat>
    requires i <= |prog|
  {
    if i == 0 then {} else Assigned(prog, i - 1) + {Target(prog[i - 1])}
  }

  /** Operation i reads only registers written before. */
  ghost predicate ReadsAssigned(prog: seq<Op>, i: nat)
    requires i < |prog|
  {
    Reads(prog[i]) <= Assigned(prog, i)
  }

  /** What the dealer draws for one operation. */
  datatype Draw = Draw(mask: bool, keys: seq<Key>)

  /** The parameters of a run; `prf` gets the key, the extension bit, the gate number and the party number. */
  datatype Setup = Setup(n: nat, nRegs: nat, prog: seq<Op>, deltaSeeds: seq<Key>, draws: seq<Draw>,
                         prf: (Key, bool, nat, nat) -> Key)
  {
    ghost predicate Valid() {
      && |deltaSeeds| == n && |draws| == |prog|
      && (forall i :: 0 <= i < |draws| ==> |draws[i].keys| == n)
      && (forall i :: 0 <= i < |prog| ==> OpInRange(prog[i]))
      && (forall i: nat {:trigger ReadsAssigned(prog, i)} :: i < |prog| ==> ReadsAssigned(prog, i))
    }

    predicate OpInRange(op: Op) {
      match op
      case And(o, l, r) => o < nRegs && l < nRegs && r < nRegs
      case XorGate(o, l, r) => o < nRegs && l < nRegs && r < nRegs
      case Input(o, from) => o < nRegs && from < n
      case PublicInput(o, _) => o < nRegs
      case RandomBit(o) => o < nRegs
      case Output(r) => r < nRegs
    }

    /** Every offset has signal bit 1. */
    function Deltas(): (d: seq<Key>)
      ensures |d| == |deltaSeeds| && forall p :: 0 <= p < |d| ==> Lsb(d[p])
    {
      seq(|deltaSeeds|, p requires 0 <= p < |deltaSeeds| => WithSignal(deltaSeeds[p], true))
    }
  }

  /** A setup whose program reads only assigned registers and which has draws for all parties. */
  type Run = s: Setup | s.Valid() witness Setup(0, 0, [], [], [], (_, _, _, _) => ZERO)

  const ONE: Key := ZERO[0 := 1]

  lemma OneFlips(k: Key)
    ensures Lsb(Xor(k, ONE)) == !Lsb(k)
  {
    XorLsb(k, ONE);
  }

  function WithSignal(k: Key, signal: bool): (r: Key)
    ensures Lsb(r) == signal
  {
    OneFlips(k);
    if Lsb(k) == signal then k else Xor(k, ONE)
  }

  function XorKeys(a: seq<Key>, b: seq<Key>): (r: seq<Key>)
    requires |a| == |b|
    ensures |r| == |a| && forall p :: 0 <= p < |a| ==> r[p] == Xor(a[p], b[p])
  {
    seq(|a|, p requires 0 <= p < |a| => Xor(a[p], b[p]))
  }

  function Zeros(n: nat): (r: seq<Key>)
    ensures |r| == n && forall p :: 0 <= p < n ==> r[p] == ZERO
  {
    seq(n, _ => ZERO)
  }

  // ----- Wires -----

  /** The mask of a wire and every party's two keys. */
  datatype Wire = Wire(mask: bool, k0: seq<Key>, k1: seq<Key>) {
    function Keys(b: bool): seq<Key> {
      if b then k1 else k0
    }
  }

  ghost predicate WireOk(s: Setup, w: Wire) {
    |w.k0| == |w.k1| == s.n == |s.deltaSeeds| && w.k1 == XorKeys(w.k0, s.Deltas())
  }

  /** A drawn wire: the 0-keys have signal 0, the 1-keys differ by the offsets. */
  function DrawnWire(s: Setup, d: Draw): (w: Wire)
    requires |d.keys| == |s.deltaSeeds|
    ensures |s.deltaSeeds| == s.n ==> WireOk(s, w)
    ensures |w.k0| == |d.keys| && forall p :: 0 <= p < |d.keys| ==> !Lsb(w.k0[p])
  {
    var k0 := seq(|d.keys|, p requires 0 <= p < |d.keys| => WithSignal(d.keys[p], false));
    Wire(d.mask, k0, XorKeys(k0, s.Deltas()))
  }

  function PublicWire(s: Setup, v: bool): (w: Wire)
    ensures |s.deltaSeeds| == s.n ==> WireOk(s, w)
  {
    var z, d := Zeros(|s.deltaSeeds|), s.Deltas();
    DeltasCancel(d);
    if v then Wire(false, d, z) else Wire(false, z, d)
  }

  lemma DeltasCancel(d: seq<Key>)
    ensures XorKeys(d, d) == Zeros(|d|) && XorKeys(Zeros(|d|), d) == d
  {
    forall p | 0 <= p < |d| ensures Xor(d[p], d[p]) == ZERO && Xor(ZERO, d[p]) == d[p] {
      XorSelf(d[p]);
      XorZero(d[p]);
    }
  }

  function XorWire(s: Setup, a: Wire, b: Wire): (w: Wire)
    requires WireOk(s, a) && WireOk(s, b)
    ensures WireOk(s, w)
  {
    Wire(a.mask != b.mask, XorKeys(a.k0, b.k0), XorKeys(XorKeys(a.k0, b.k0), s.Deltas()))
  }

  /** All registers are unused at first. */
  function Unused(s: Setup): (w: Wire)
    requires |s.deltaSeeds| == s.n
    ensures WireOk(s, w)
  {
    PublicWire(s, false)
  }

  ghost predicate AllOk(s: Setup, regs: seq<Wire>) {
    |regs| == s.nRegs && forall r :: 0 <= r < |regs| ==> WireOk(s, regs[r])
  }

  /** The wire operation i assigns, given the registers before it. */
  function NewWire(s: Run, i: nat, regs: seq<Wire>): (w: Wire)
    requires i < |s.prog| && AllOk(s, regs)
    ensures WireOk(s, w)
  {
    match s.prog[i]
    case And(_, _, _) => DrawnWire(s, s.draws[i])
    case XorGate(_, l, r) => XorWire(s, regs[l], regs[r])
    case Input(_, _) => DrawnWire(s, s.draws[i])
    case PublicInput(_, v) => PublicWire(s, v)
    case RandomBit(_) => DrawnWire(s, s.draws[i])
    case Output(r) => regs[r]
  }

  /** The dealer's registers before operation i. */
  ghost function Dealt(s: Run, i: nat): (regs: seq<Wire>)
    requires i <= |s.prog|
    ensures AllOk(s, regs)
  {
    if i == 0 then seq(s.nRegs, _ => Unused(s)) else
      var regs := Dealt(s, i - 1);
      assert s.OpInRange(s.prog[i - 1]);
      regs[Target(s.prog[i - 1]) := NewWire(s, i - 1, regs)]
  }

  ghost function WireAt(s: Run, i: nat): (w: Wire)
    requires i < |s.prog|
    ensures WireOk(s, w)
  {
    NewWire(s, i, Dealt(s, i))
  }

  // ----- The circuit in the clear -----

  /** Plain values before operation i; a random bit is the mask drawn for it. */
  ghost function Plain(s: Run, inputs: seq<bool>, i: nat): (v: seq<bool>)
    requires |inputs| == |s.prog| && i <= |s.prog|
    ensures |v| == s.nRegs
  {
    if i == 0 then seq(s.nRegs, _ => false) else
      var v, op := Plain(s, inputs, i - 1), s.prog[i - 1];
      assert s.OpInRange(op);
      match op
      case And(o, l, r) => v[o := v[l] && v[r]]
      case XorGate(o, l, r) => v[o := v[l] != v[r]]
      case Input(o, _) => v[o := inputs[i - 1]]
      case PublicInput(o, b) => v[o := b]
      case RandomBit(o) => v[o := s.draws[i - 1].mask]
      case Output(_) => v
  }

  // ----- Garbled rows -----

  /** The number of the next AND gate; numbers start at 1. */
  ghost function GateNumber(s: Setup, i: nat): nat
    requires i <= |s.prog|
  {
    if i == 0 then 0 else GateNumber(s, i - 1) + if s.prog[i - 1].And? then 1 else 0
  }

  /** The padding of entry (a, b) for party j from the first m parties: their left keys with extension b and
      right keys with extension a. */
  ghost function Padding(s: Setup, lk: seq<Key>, rk: seq<Key>, a: bool, b: bool, g: nat, j: nat, m: nat): Key
    requires m <= |lk| == |rk|
  {
    if m == 0 then ZERO else
      Xor(Padding(s, lk, rk, a, b, g, j, m - 1), Xor(s.prf(lk[m - 1], b, g, j), s.prf(rk[m - 1], a, g, j)))
  }

  /** Which output key entry (a, b) hides: external a on a wire with mask l stands for the value a xor l. */
  function Hidden(l: bool, r: bool, o: bool, a: bool, b: bool): bool {
    ((l != a) && (r != b)) != o
  }

  ghost function Row(s: Setup, l: Wire, r: Wire, o: Wire, g: nat, a: bool, b: bool): (row: seq<Key>)
    requires WireOk(s, l) && WireOk(s, r) && WireOk(s, o)
    ensures |row| == s.n
  {
    XorKeys(PaddingRow(s, l, r, g, a, b), o.Keys(Hidden(l.mask, r.mask, o.mask, a, b)))
  }

  ghost function PaddingRow(s: Setup, l: Wire, r: Wire, g: nat, a: bool, b: bool): (row: seq<Key>)
    requires WireOk(s, l) && WireOk(s, r)
    ensures |row| == s.n
  {
    seq(s.n, j requires 0 <= j < s.n => Padding(s, l.Keys(a), r.Keys(b), a, b, g, j, s.n))
  }

  type GarbledGate = seq<seq<Key>>

  ghost function GateRows(s: Setup, l: Wire, r: Wire, o: Wire, g: nat): (gate: GarbledGate)
    requires WireOk(s, l) && WireOk(s, r) && WireOk(s, o)
    ensures |gate| == 4
  {
    [Row(s, l, r, o, g, false, false), Row(s, l, r, o, g, false, true),
     Row(s, l, r, o, g, true, false), Row(s, l, r, o, g, true, true)]
  }

  // ----- Evaluation of one wire -----

  datatype EvalWire = EvalWire(external: bool, entry: seq<Key>)

  /** The public value is the masked plain value, and the entry holds all parties' keys for it. */
  ghost predicate Represents(w: Wire, v: bool, e: EvalWire) {
    e.external == (w.mask != v) && e.entry == w.Keys(e.external)
  }

  lemma XorRepresents(s: Setup, a: Wire, va: bool, ea: EvalWire, b: Wire, vb: bool, eb: EvalWire)
    requires WireOk(s, a) && WireOk(s, b) && Represents(a, va, ea) && Represents(b, vb, eb)
    ensures |ea.entry| == |eb.entry|
    ensures Represents(XorWire(s, a, b), va != vb, EvalWire(ea.external != eb.external, XorKeys(ea.entry, eb.entry)))
  {
    var w, d := XorWire(s, a, b), s.Deltas();
    var x, y := ea.external, eb.external;
    forall p | 0 <= p < s.n ensures Xor(ea.entry[p], eb.entry[p]) == w.Keys(x != y)[p] {
      XorZero(a.k0[p]);
      XorZero(b.k0[p]);
      XorZero(Xor(a.k0[p], b.k0[p]));
      XorSwap(a.k0[p], Times(x, d[p]), b.k0[p], Times(y, d[p]));
      TimesXor(x, y, d[p]);
    }
  }

  /** Taking the padding off the chosen row leaves the hidden keys. */
  lemma RowOpens(s: Setup, l: Wire, r: Wire, o: Wire, g: nat, a: bool, b: bool, j: nat)
    requires WireOk(s, l) && WireOk(s, r) && WireOk(s, o) && j < s.n
    ensures Xor(Row(s, l, r, o, g, a, b)[j], Padding(s, l.Keys(a), r.Keys(b), a, b, g, j, s.n))
            == o.Keys(Hidden(l.mask, r.mask, o.mask, a, b))[j]
  {
    var p, k := Padding(s, l.Keys(a), r.Keys(b), a, b, g, j, s.n), o.Keys(Hidden(l.mask, r.mask, o.mask, a, b))[j];
    XorComm(p, k);
    XorCancel(k, p);
  }
}

/** The queues between the phases: what every operation puts into each of them. */
module BmrMessages {
  import opened Blocks
  import opened BmrCircuit

  /** What the operations from i on put into a queue. */
  ghost function Rest<T>(msgs: seq<seq<T>>, i: nat): seq<T>
    decreases |msgs| - i
  {
    if i >= |msgs| then [] else msgs[i] + Rest(msgs, i + 1)
  }

  /** What the first i operations put into a queue. */
  ghost function Upto<T>(msgs: seq<seq<T>>, i: nat): seq<T>
    requires i <= |msgs|
  {
    if i == 0 then [] else Upto(msgs, i - 1) + msgs[i - 1]
  }

  lemma {:induction false} UptoAndRest<T>(msgs: seq<seq<T>>, i: nat)
    requires i <= |msgs|
    ensures Upto(msgs, i) + Rest(msgs, i) == Upto(msgs, |msgs|)
    decreases |msgs| - i
  {
    if i == |msgs| {
      assert Upto(msgs, i) + [] == Upto(msgs, i);
    } else {
      UptoAndRest(msgs, i + 1);
      assert Upto(msgs, i) + (msgs[i] + Rest(msgs, i + 1)) == (Upto(msgs, i) + msgs[i]) + Rest(msgs, i + 1);
    }
  }

  /** What was produced from the first operation on is there to be consumed. */
  lemma ProducedIsConsumed<T>(msgs: seq<seq<T>>)
    ensures Upto(msgs, |msgs|) == Rest(msgs, 0)
  {
    UptoAndRest(msgs, 0);
    assert [] + Rest(msgs, 0) == Rest(msgs, 0);
  }

  /** A consumer finds operation i's message in front. */
  lemma Consumed<T>(queue: seq<T>, msgs: seq<seq<T>>, i: nat)
    requires i < |msgs| && queue == Rest(msgs, i)
    ensures |msgs[i]| <= |queue| && queue[..|msgs[i]|] == msgs[i] && queue[|msgs[i]|..] == Rest(msgs, i + 1)
  {
  }

  /** The PRF values of one party for one receiver: by side, key bit and extension. */
  datatype PrfTuple = PrfTuple(l00: Key, l01: Key, l10: Key, l11: Key, r00: Key, r01: Key, r10: Key, r11: Key) {
    function Left(b: bool, e: bool): Key {
      if b then (if e then l11 else l10) else (if e then l01 else l00)
    }

    function Right(b: bool, e: bool): Key {
      if b then (if e then r11 else r10) else (if e then r01 else r00)
    }

    /** for_garbling(2 * a + b) */
    function ForGarbling(a: bool, b: bool): Key {
      Xor(Left(a, b), Right(b, a))
    }
  }

  function TupleOf(prf: (Key, bool, nat, nat) -> Key, l0: Key, l1: Key, r0: Key, r1: Key, g: nat, j: nat): PrfTuple {
    PrfTuple(prf(l0, false, g, j), prf(l0, true, g, j), prf(l1, false, g, j), prf(l1, true, g, j),
             prf(r0, false, g, j), prf(r0, true, g, j), prf(r1, false, g, j), prf(r1, true, g, j))
  }

  // ----- Messages of one operation, given the wire it assigns or outputs -----

  /** The dealer's keys for party p. */
  function KeysOf(op: Op, w: Wire, p: nat): seq<Key>
    requires p < |w.k0| == |w.k1|
  {
    match op
    case And(_, _, _) => [w.k0[p], w.k1[p]]
    case Input(_, _) => [w.k0[p], w.k1[p]]
    case RandomBit(_) => [w.k0[p], w.k1[p]] + w.k0
    case _ => []
  }

  /** The wires party p keeps from the PRF phase for the evaluation. */
  function StoredOf(op: Op, w: Wire, p: nat): seq<Key>
    requires p < |w.k0|
  {
    match op
    case Input(_, _) => [w.k0[p]]
    case RandomBit(_) => [w.k0[p]] + w.k0
    case Output(_) => [w.k0[p]]
    case _ => []
  }

  /** The wires the dealer keeps from the random phase for garbling. */
  function DealerKeeps(op: Op, w: Wire): seq<Wire> {
    if op.XorGate? || op.Output? then [] else [w]
  }

  function InputMaskOf(op: Op, w: Wire, p: nat): seq<bool> {
    if op.Input? && op.from == p then [w.mask] else []
  }

  function OutputMaskOf(op: Op, w: Wire): seq<bool> {
    if op.Output? then [w.mask] else []
  }

  ghost function GateTuples(s: Setup, p: nat, l: Wire, r: Wire, g: nat): (t: seq<PrfTuple>)
    requires WireOk(s, l) && WireOk(s, r) && p < s.n
    ensures |t| == s.n
  {
    seq(s.n, j requires 0 <= j < s.n => TupleOf(s.prf, l.k0[p], l.k1[p], r.k0[p], r.k1[p], g, j))
  }

  /** The wires an AND gate reads. */
  ghost function LeftOf(s: Run, i: nat): (w: Wire)
    requires i < |s.prog| && s.prog[i].And?
    ensures WireOk(s, w)
  {
    assert s.OpInRange(s.prog[i]);
    Dealt(s, i)[s.prog[i].left]
  }

  ghost function RightOf(s: Run, i: nat): (w: Wire)
    requires i < |s.prog| && s.prog[i].And?
    ensures WireOk(s, w)
  {
    assert s.OpInRange(s.prog[i]);
    Dealt(s, i)[s.prog[i].right]
  }

  /** Party p's PRF values for an AND gate, one tuple for every receiver. */
  ghost function TupleMsg(s: Run, p: nat, i: nat): seq<PrfTuple>
    requires p < s.n && i < |s.prog|
  {
    if !s.prog[i].And? then [] else GateTuples(s, p, LeftOf(s, i), RightOf(s, i), GateNumber(s, i) + 1)
  }

  ghost function CircuitMsg(s: Run, i: nat): seq<GarbledGate>
    requires i < |s.prog|
  {
    if !s.prog[i].And? then [] else [GateOf(s, i)]
  }

  /** The garbled gate of an AND operation. */
  ghost function GateOf(s: Run, i: nat): GarbledGate
    requires i < |s.prog| && s.prog[i].And?
  {
    GateRows(s, LeftOf(s, i), RightOf(s, i), WireAt(s, i), GateNumber(s, i) + 1)
  }

  lemma GateOfIs(s: Run, i: nat, g: nat)
    requires i < |s.prog| && s.prog[i].And? && g == GateNumber(s, i) + 1
    ensures GateOf(s, i) == GateRows(s, LeftOf(s, i), RightOf(s, i), WireAt(s, i), g)
  {
    hide GateRows, LeftOf, RightOf, WireAt;
  }

  // ----- All messages of a queue -----

  ghost function KeyMsgs(s: Run, p: nat): (m: seq<seq<Key>>)
    requires p < s.n
    ensures |m| == |s.prog| && forall i {:trigger m[i]} :: 0 <= i < |m| ==> m[i] == KeysOf(s.prog[i], WireAt(s, i), p)
  {
    seq(|s.prog|, i requires 0 <= i < |s.prog| => KeysOf(s.prog[i], WireAt(s, i), p))
  }

  ghost function PartyWires(s: Run, p: nat): (m: seq<seq<Key>>)
    requires p < s.n
    ensures |m| == |s.prog| && forall i {:trigger m[i]} :: 0 <= i < |m| ==> m[i] == StoredOf(s.prog[i], WireAt(s, i), p)
  {
    seq(|s.prog|, i requires 0 <= i < |s.prog| => StoredOf(s.prog[i], WireAt(s, i), p))
  }

  ghost function DealerWires(s: Run): (m: seq<seq<Wire>>)
    ensures |m| == |s.prog| && forall i {:trigger m[i]} :: 0 <= i < |m| ==> m[i] == DealerKeeps(s.prog[i], WireAt(s, i))
  {
    seq(|s.prog|, i requires 0 <= i < |s.prog| => DealerKeeps(s.prog[i], WireAt(s, i)))
  }

  ghost function InputMasks(s: Run, p: nat): (m: seq<seq<bool>>)
    requires p < s.n
    ensures |m| == |s.prog| && forall i {:trigger m[i]} :: 0 <= i < |m| ==>
      m[i] == InputMaskOf(s.prog[i], WireAt(s, i), p)
  {
    seq(|s.prog|, i requires 0 <= i < |s.prog| => InputMaskOf(s.prog[i], WireAt(s, i), p))
  }

  ghost function OutputMasks(s: Run): (m: seq<seq<bool>>)
    ensures |m| == |s.prog| && forall i {:trigger m[i]} :: 0 <= i < |m| ==>
      m[i] == OutputMaskOf(s.prog[i], WireAt(s, i))
  {
    seq(|s.prog|, i requires 0 <= i < |s.prog| => OutputMaskOf(s.prog[i], WireAt(s, i)))
  }

  ghost function TupleMsgs(s: Run, p: nat): (m: seq<seq<PrfTuple>>)
    requires p < s.n
    ensures |m| == |s.prog| && forall i {:trigger m[i]} :: 0 <= i < |m| ==> m[i] == TupleMsg(s, p, i)
  {
    seq(|s.prog|, i requires 0 <= i < |s.prog| => TupleMsg(s, p, i))
  }

  ghost function CircuitMsgs(s: Run): (m: seq<seq<GarbledGate>>)
    ensures |m| == |s.prog| && forall i {:trigger m[i]} :: 0 <= i < |m| ==> m[i] == CircuitMsg(s, i)
  {
    seq(|s.prog|, i requires 0 <= i < |s.prog| => CircuitMsg(s, i))
  }

  lemma TupleMsgIs(s: Run, p: nat, i: nat, tuples: seq<PrfTuple>, g: nat)
    requires p < s.n && i < |s.prog| && g == GateNumber(s, i + 1)
    requires tuples == if s.prog[i].And? then GateTuples(s, p, LeftOf(s, i), RightOf(s, i), g) else []
    ensures TupleMsgs(s, p)[i] == tuples
  {
  }

  lemma TuplesInFront(s: Run, p: nat, i: nat, queue: seq<PrfTuple>)
    requires p < s.n && i < |s.prog| && queue == Rest(TupleMsgs(s, p), i)
    ensures s.prog[i].And? ==>
      && GateTuples(s, p, LeftOf(s, i), RightOf(s, i), GateNumber(s, i) + 1) <= queue
      && queue[s.n..] == Rest(TupleMsgs(s, p), i + 1)
    ensures !s.prog[i].And? ==> queue == Rest(TupleMsgs(s, p), i + 1)
  {
    Consumed(queue, TupleMsgs(s, p), i);
  }

  lemma CircuitInFront(s: Run, i: nat, circuit: seq<GarbledGate>)
    requires i < |s.prog| && s.prog[i].And? && circuit == Rest(CircuitMsgs(s), i)
    ensures circuit != [] && circuit[0] == GateOf(s, i)
  {
    Consumed(circuit, CircuitMsgs(s), i);
    assert circuit[0] == circuit[..1][0];
  }

  lemma CircuitTaken(s: Run, i: nat, circuit: seq<GarbledGate>)
    requires i < |s.prog| && circuit == Rest(CircuitMsgs(s), i)
    ensures s.prog[i].And? ==> circuit != []
    ensures circuit[if s.prog[i].And? then 1 else 0..] == Rest(CircuitMsgs(s), i + 1)
  {
    Consumed(circuit, CircuitMsgs(s), i);
  }
}

/** The dealer: the random phase and the garbling phase over the same program. */
module BmrDealer {
  import opened Blocks
  import opened BmrCircuit
  import opened BmrMessages

  /** What party p gets from the first i operations of the random phase. */
  ghost predicate DealtTo(s: Run, p: nat, i: nat, keys: seq<Key>, masks: seq<bool>)
    requires p < s.n && i <= |s.prog|
  {
    keys == Upto(KeyMsgs(s, p), i) && masks == Upto(InputMasks(s, p), i)
  }

  class TrustedProgramParty {
    var wires: seq<Wire>
    var msgKeys: seq<seq<Key>>
    var inputMasks: seq<seq<bool>>
    var outputMasks: seq<bool>
    var circuit: seq<GarbledGate>

    constructor (n: nat)
      ensures wires == [] && msgKeys == seq(n, _ => []) && inputMasks == seq(n, _ => []) && outputMasks == [] &&
        circuit == []
    {
      wires, msgKeys, inputMasks, outputMasks, circuit := [], seq(n, _ => []), seq(n, _ => []), [], [];
    }

    /** add_keys: every party gets its own two keys of the wire. */
    method AddKeys(w: Wire)
      requires |msgKeys| == |w.k0| == |w.k1|
      modifies `msgKeys
      ensures |msgKeys| == old(|msgKeys|)
      ensures forall p :: 0 <= p < |msgKeys| ==> msgKeys[p] == old(msgKeys)[p] + [w.k0[p], w.k1[p]]
    {
      for p := 0 to |msgKeys|
        invariant |msgKeys| == old(|msgKeys|)
        invariant forall q :: 0 <= q < |msgKeys| ==>
                                msgKeys[q] == if q < p then old(msgKeys)[q] + [w.k0[q], w.k1[q]] else old(msgKeys)[q]
      {
        msgKeys := msgKeys[p := msgKeys[p] + [w.k0[p], w.k1[p]]];
      }
    }

    /** add_all_keys: every party gets all 0-keys. */
    method AddAllKeys(w: Wire)
      modifies `msgKeys
      ensures |msgKeys| == old(|msgKeys|)
      ensures forall p :: 0 <= p < |msgKeys| ==> msgKeys[p] == old(msgKeys)[p] + w.k0
    {
      for p := 0 to |msgKeys|
        invariant |msgKeys| == old(|msgKeys|)
        invariant forall q :: 0 <= q < |msgKeys| ==>
          msgKeys[q] == if q < p then old(msgKeys)[q] + w.k0 else old(msgKeys)[q]
      {
        msgKeys := msgKeys[p := msgKeys[p] + w.k0];
      }
    }

    /** All queues of the random phase after i operations. */
    ghost predicate Dealing(s: Run, i: nat)
      requires i <= |s.prog|
      reads this
    {
      && |msgKeys| == |inputMasks| == s.n
      && wires == Upto(DealerWires(s), i) && outputMasks == Upto(OutputMasks(s), i)
      && (forall p: nat {:trigger DealtTo(s, p, i, msgKeys[p], inputMasks[p])} :: p < s.n ==>
            DealtTo(s, p, i, msgKeys[p], inputMasks[p]))
    }

    /** What the random phase sends and keeps for one operation. */
    method Emit(op: Op, w: Wire)
      requires |msgKeys| == |inputMasks| == |w.k0| == |w.k1| && (op.Input? ==> op.from < |inputMasks|)
      modifies `wires, `msgKeys, `inputMasks, `outputMasks
      ensures |msgKeys| == |inputMasks| == |w.k0|
      ensures wires == old(wires) + DealerKeeps(op, w) && outputMasks == old(outputMasks) + OutputMaskOf(op, w)
      ensures forall p: nat :: p < |msgKeys| ==> msgKeys[p] == old(msgKeys)[p] + KeysOf(op, w, p)
      ensures forall p: nat :: p < |msgKeys| ==> inputMasks[p] == old(inputMasks)[p] + InputMaskOf(op, w, p)
    {
      match op {
        case And(_, _, _) =>
          AddKeys(w);
          wires := wires + [w];
        case XorGate(_, _, _) =>
        case Input(_, from) =>
          AddKeys(w);
          wires := wires + [w];
          inputMasks := inputMasks[from := inputMasks[from] + [w.mask]];
        case PublicInput(_, _) =>
          wires := wires + [w];
        case RandomBit(_) =>
          AddKeys(w);
          AddAllKeys(w);
          wires := wires + [w];
        case Output(_) =>
          outputMasks := outputMasks + [w.mask];
      }
    }

    /** One operation on random registers. */
    method RandomOp(s: Run, i: nat, regs: seq<Wire>) returns (regs': seq<Wire>)
      requires i < |s.prog| && Dealing(s, i) && regs == Dealt(s, i)
      modifies `wires, `msgKeys, `inputMasks, `outputMasks
      ensures Dealing(s, i + 1) && regs' == Dealt(s, i + 1)
    {
      assert s.OpInRange(s.prog[i]);
      var w := NewWire(s, i, regs);
      Emit(s.prog[i], w);
      regs' := regs[Target(s.prog[i]) := w];
      forall p: nat {:trigger DealtTo(s, p, i + 1, msgKeys[p], inputMasks[p])} | p < s.n
        ensures DealtTo(s, p, i + 1, msgKeys[p], inputMasks[p])
      {
        assert DealtTo(s, p, i, old(msgKeys)[p], old(inputMasks)[p]);
      }
    }

    method RandomPhase(s: Run)
      requires wires == [] && msgKeys == seq(s.n, _ => []) && inputMasks == seq(s.n, _ => []) && outputMasks == []
      modifies `wires, `msgKeys, `inputMasks, `outputMasks
      ensures Dealing(s, |s.prog|)
    {
      NothingDealt(s);
      RandomOps(s, seq(s.nRegs, _ => Unused(s)));
    }

    lemma NothingDealt(s: Run)
      requires wires == [] && msgKeys == seq(s.n, _ => []) && inputMasks == seq(s.n, _ => []) && outputMasks == []
      ensures Dealing(s, 0) && Dealt(s, 0) == seq(s.nRegs, _ => Unused(s))
    {
      forall p: nat {:trigger DealtTo(s, p, 0, msgKeys[p], inputMasks[p])} | p < s.n
        ensures DealtTo(s, p, 0, msgKeys[p], inputMasks[p])
      {
      }
    }

    method RandomOps(s: Run, start: seq<Wire>)
      requires Dealing(s, 0) && start == Dealt(s, 0)
      modifies `wires, `msgKeys, `inputMasks, `outputMasks
      ensures Dealing(s, |s.prog|)
    {
      var regs := start;
      for i := 0 to |s.prog|
        invariant Dealing(s, i) && regs == Dealt(s, i)
      {
        regs := RandomOp(s, i, regs);
      }
    }

    // ----- The garbling phase -----

    /** One row gets the PRF values of one party. */
    method AddTuples(row: seq<Key>, tuples: seq<PrfTuple>, a: bool, b: bool) returns (row': seq<Key>)
      requires |row| == |tuples|
      ensures |row'| == |row| && forall j :: 0 <= j < |row| ==> row'[j] == Xor(row[j], tuples[j].ForGarbling(a, b))
    {
      row' := row;
      for j := 0 to |row|
        invariant |row'| == |row|
        invariant forall k :: 0 <= k < |row| ==>
          row'[k] == if k < j then Xor(row[k], tuples[k].ForGarbling(a, b)) else row[k]
      {
        row' := row'[j := Xor(row'[j], tuples[j].ForGarbling(a, b))];
      }
    }

    /** All parties' PRF values for one row; the tuples of the gate are in front of every party's queue. */
    method PadRow(s: Setup, prfOutputs: seq<seq<PrfTuple>>, a: bool, b: bool, ghost l: Wire, ghost r: Wire,
                  ghost g: nat)
      returns (row: seq<Key>)
      requires WireOk(s, l) && WireOk(s, r) && |prfOutputs| == s.n
      requires forall p: nat :: p < s.n ==> GateTuples(s, p, l, r, g) <= prfOutputs[p]
      ensures row == PaddingRow(s, l, r, g, a, b)
    {
      row := Zeros(s.n);
      for p := 0 to s.n
        invariant |row| == s.n
        invariant forall j: nat :: j < s.n ==> row[j] == Padding(s, l.Keys(a), r.Keys(b), a, b, g, j, p)
      {
        assert GateTuples(s, p, l, r, g) <= prfOutputs[p];
        assert prfOutputs[p][..s.n] == GateTuples(s, p, l, r, g);
        row := AddTuples(row, prfOutputs[p][..s.n], a, b);
      }
    }

    /** Register::garble for AND: padding and hidden output keys of the four rows. */
    method GarbleAnd(s: Setup, maskl: bool, maskr: bool, out: Wire, prfOutputs: seq<seq<PrfTuple>>, ghost l: Wire,
                     ghost r: Wire, ghost g: nat) returns (gate: GarbledGate)
      requires WireOk(s, l) && WireOk(s, r) && WireOk(s, out) && maskl == l.mask && maskr == r.mask
      requires |prfOutputs| == s.n && forall p: nat :: p < s.n ==> GateTuples(s, p, l, r, g) <= prfOutputs[p]
      ensures gate == GateRows(s, l, r, out, g)
    {
      var masko := out.mask;
      var ggA := PadRow(s, prfOutputs, false, false, l, r, g);
      var ggB := PadRow(s, prfOutputs, false, true, l, r, g);
      var ggC := PadRow(s, prfOutputs, true, false, l, r, g);
      var ggD := PadRow(s, prfOutputs, true, true, l, r, g);
      var xa := (maskl && maskr) != masko;
      var xb := (maskl && !maskr) != masko;
      var xc := (!maskl && maskr) != masko;
      var xd := (!maskl && !maskr) != masko;
      ggA, ggB := XorKeys(ggA, out.Keys(xa)), XorKeys(ggB, out.Keys(xb));
      ggC, ggD := XorKeys(ggC, out.Keys(xc)), XorKeys(ggD, out.Keys(xd));
      gate := [ggA, ggB, ggC, ggD];
    }

    /** The state of the garbling phase: masks known, queues consumed in step, circuit so far. */
    ghost predicate Garbling(s: Run, i: nat, masks: seq<bool>, prfOutputs: seq<seq<PrfTuple>>)
      requires i <= |s.prog|
      reads `wires, `circuit
    {
      && MasksKnown(s, i, masks) && |prfOutputs| == s.n
      && wires == Rest(DealerWires(s), i) && circuit == Upto(CircuitMsgs(s), i)
      && (forall p: nat :: p < s.n ==> prfOutputs[p] == Rest(TupleMsgs(s, p), i))
    }

    method LoadWire(s: Run, ghost i: nat) returns (w: Wire)
      requires i < |s.prog| && wires == Rest(DealerWires(s), i) && !s.prog[i].XorGate? && !s.prog[i].Output?
      modifies `wires
      ensures w == WireAt(s, i) && wires == Rest(DealerWires(s), i + 1)
    {
      Consumed(wires, DealerWires(s), i);
      w := wires[0];
      wires := wires[1..];
    }

    method GarbleGate(s: Run, i: nat, masks: seq<bool>, prfOutputs: seq<seq<PrfTuple>>)
      returns (w: Wire, prfOutputs': seq<seq<PrfTuple>>)
      requires i < |s.prog| && s.prog[i].And? && Garbling(s, i, masks, prfOutputs)
      modifies `wires, `circuit
      ensures w == WireAt(s, i) && |prfOutputs'| == s.n
      ensures wires == Rest(DealerWires(s), i + 1) && circuit == Upto(CircuitMsgs(s), i + 1)
      ensures forall p: nat :: p < s.n ==> prfOutputs'[p] == Rest(TupleMsgs(s, p), i + 1)
    {
      var op := s.prog[i];
      assert s.OpInRange(op) && ReadsAssigned(s.prog, i);
      ghost var l, r, g := LeftOf(s, i), RightOf(s, i), GateNumber(s, i) + 1;
      forall p: nat | p < s.n ensures GateTuples(s, p, l, r, g) <= prfOutputs[p] {
        TuplesInFront(s, p, i, prfOutputs[p]);
      }
      w := LoadWire(s, i);
      var gate := GarbleAnd(s, masks[op.left], masks[op.right], w, prfOutputs, l, r, g);
      circuit := circuit + [gate];
      prfOutputs' := DropTuples(s, i, prfOutputs);
    }

    method DropTuples(s: Run, ghost i: nat, prfOutputs: seq<seq<PrfTuple>>) returns (rest: seq<seq<PrfTuple>>)
      requires i < |s.prog| && s.prog[i].And? && |prfOutputs| == s.n
      requires forall p: nat :: p < s.n ==> prfOutputs[p] == Rest(TupleMsgs(s, p), i)
      ensures |rest| == s.n && forall p: nat :: p < s.n ==> rest[p] == Rest(TupleMsgs(s, p), i + 1)
    {
      forall p: nat | p < s.n ensures s.n <= |prfOutputs[p]| && prfOutputs[p][s.n..] == Rest(TupleMsgs(s, p), i + 1) {
        TuplesInFront(s, p, i, prfOutputs[p]);
      }
      rest := seq(s.n, p requires 0 <= p < s.n => prfOutputs[p][s.n..]);
    }

    ghost predicate MasksKnown(s: Run, i: nat, masks: seq<bool>)
      requires i <= |s.prog|
    {
      |masks| == s.nRegs && forall r :: r in Assigned(s.prog, i) && r < s.nRegs ==> masks[r] == Dealt(s, i)[r].mask
    }

    lemma MaskStep(s: Run, i: nat, masks: seq<bool>)
      requires i < |s.prog| && MasksKnown(s, i, masks)
      ensures s.OpInRange(s.prog[i])
      ensures MasksKnown(s, i + 1, masks[Target(s.prog[i]) := WireAt(s, i).mask])
      ensures s.prog[i].XorGate? ==> WireAt(s, i).mask == (masks[s.prog[i].left] != masks[s.prog[i].right])
      ensures s.prog[i].Output? ==> WireAt(s, i).mask == masks[s.prog[i].reg]
    {
      assert ReadsAssigned(s.prog, i);
    }

    method GarbleOp(s: Run, i: nat, masks: seq<bool>, prfOutputs: seq<seq<PrfTuple>>)
      returns (masks': seq<bool>, prfOutputs': seq<seq<PrfTuple>>)
      requires i < |s.prog| && Garbling(s, i, masks, prfOutputs)
      modifies `wires, `circuit
      ensures Garbling(s, i + 1, masks', prfOutputs')
    {
      var op := s.prog[i];
      MaskStep(s, i, masks);
      masks', prfOutputs' := masks, prfOutputs;
      forall p: nat | p < s.n && !op.And? ensures prfOutputs[p] == Rest(TupleMsgs(s, p), i + 1) {
        TuplesInFront(s, p, i, prfOutputs[p]);
      }
      match op {
        case And(o, _, _) =>
          var w;
          w, prfOutputs' := GarbleGate(s, i, masks, prfOutputs);
          masks' := masks[o := w.mask];
        case XorGate(o, l, r) =>
          masks' := masks[o := masks[l] != masks[r]];
        case Output(r) =>
          assert masks == masks[r := masks[r]];
        case _ =>
          var w := LoadWire(s, i);
          masks' := masks[Target(op) := w.mask];
      }
    }

    /** The garbling phase uses up all PRF values and gives one gate of four rows for every AND. */
    method GarblingPhase(s: Run, prfOutputs: seq<seq<PrfTuple>>)
      requires Dealing(s, |s.prog|) && circuit == [] && |prfOutputs| == s.n
      requires forall p: nat :: p < s.n ==> prfOutputs[p] == Rest(TupleMsgs(s, p), 0)
      modifies `wires, `circuit
      ensures circuit == Upto(CircuitMsgs(s), |s.prog|)
    {
      ProducedIsConsumed(DealerWires(s));
      GarbleOps(s, seq(s.nRegs, _ => false), prfOutputs);
    }

    method GarbleOps(s: Run, masks0: seq<bool>, prfOutputs: seq<seq<PrfTuple>>)
      requires Garbling(s, 0, masks0, prfOutputs)
      modifies `wires, `circuit
      ensures circuit == Upto(CircuitMsgs(s), |s.prog|)
    {
      var masks, outputs := masks0, prfOutputs;
      for i := 0 to |s.prog|
        invariant Garbling(s, i, masks, outputs)
      {
        masks, outputs := GarbleOp(s, i, masks, outputs);
      }
    }
  }
}

/** A party: the PRF phase, and the evaluation phase together with the others. */
module BmrParty {
  import opened Blocks
  import opened BmrCircuit
  import opened BmrMessages

  /** The PRF phase knows the party's own keys of every assigned register. */
  ghost predicate OwnKeys(s: Run, p: nat, i: nat, regs: seq<(Key, Key)>)
    requires p < s.n && i <= |s.prog|
  {
    |regs| == s.nRegs
    && forall r: nat :: r in Assigned(s.prog, i) && r < s.nRegs ==>
         regs[r] == (Dealt(s, i)[r].k0[p], Dealt(s, i)[r].k1[p])
  }

  lemma OwnStep(s: Run, p: nat, i: nat, regs: seq<(Key, Key)>)
    requires p < s.n && i < |s.prog| && OwnKeys(s, p, i, regs)
    ensures s.OpInRange(s.prog[i])
    ensures OwnKeys(s, p, i + 1, regs[Target(s.prog[i]) := (WireAt(s, i).k0[p], WireAt(s, i).k1[p])])
    ensures s.prog[i].Output? ==> (WireAt(s, i).k0[p], WireAt(s, i).k1[p]) == regs[s.prog[i].reg]
    ensures s.prog[i].XorGate? ==>
      && WireAt(s, i).k0[p] == Xor(regs[s.prog[i].left].0, regs[s.prog[i].right].0)
      && WireAt(s, i).k1[p] == Xor(WireAt(s, i).k0[p], s.Deltas()[p])
    ensures s.prog[i].And? ==>
      && regs[s.prog[i].left] == (LeftOf(s, i).k0[p], LeftOf(s, i).k1[p])
      && regs[s.prog[i].right] == (RightOf(s, i).k0[p], RightOf(s, i).k1[p])
    ensures s.prog[i].PublicInput? ==>
      (WireAt(s, i).k0[p], WireAt(s, i).k1[p])
      == if s.prog[i].value then (s.Deltas()[p], ZERO) else (ZERO, s.Deltas()[p])
  {
    assert ReadsAssigned(s.prog, i);
  }

  // ----- Evaluation -----

  ghost predicate EvalRegs(s: Run, inputs: seq<bool>, i: nat, regs: seq<EvalWire>)
    requires |inputs| == |s.prog| && i <= |s.prog|
  {
    |regs| == s.nRegs
    && forall r: nat :: r in Assigned(s.prog, i) && r < s.nRegs ==>
         Represents(Dealt(s, i)[r], Plain(s, inputs, i)[r], regs[r])
  }

  /** The value operation i assigns or outputs. */
  ghost function ValueAt(s: Run, inputs: seq<bool>, i: nat): bool
    requires |inputs| == |s.prog| && i < |s.prog|
  {
    assert s.OpInRange(s.prog[i]);
    Plain(s, inputs, i + 1)[Target(s.prog[i])]
  }

  lemma EvalStep(s: Run, inputs: seq<bool>, i: nat, regs: seq<EvalWire>, e: EvalWire)
    requires |inputs| == |s.prog| && i < |s.prog| && EvalRegs(s, inputs, i, regs)
    requires Represents(WireAt(s, i), ValueAt(s, inputs, i), e)
    ensures s.OpInRange(s.prog[i]) && EvalRegs(s, inputs, i + 1, regs[Target(s.prog[i]) := e])
  {
    assert s.OpInRange(s.prog[i]);
    var v, v' := Plain(s, inputs, i), Plain(s, inputs, i + 1);
    assert forall r :: 0 <= r < s.nRegs && r != Target(s.prog[i]) ==> v'[r] == v[r];
  }

  /** What operation i reads, and what it makes of it. */
  ghost predicate Meaning(s: Setup, op: Op, regs: seq<EvalWire>, l: Wire, r: Wire, w: Wire, vl: bool, vr: bool, v: bool)
    requires s.OpInRange(op) && |regs| == s.nRegs && |s.deltaSeeds| == s.n
  {
    match op
    case And(_, left, right) =>
      WireOk(s, l) && WireOk(s, r) && v == (vl && vr) && Represents(l, vl, regs[left]) && Represents(r, vr, regs[right])
      && |w.k0| == s.n && forall p :: 0 <= p < s.n ==> !Lsb(w.k0[p])
    case XorGate(_, left, right) =>
      WireOk(s, l) && WireOk(s, r) && v == (vl != vr) && Represents(l, vl, regs[left]) && Represents(r, vr, regs[right])
      && w == XorWire(s, l, r)
    case Input(_, _) => true
    case PublicInput(_, b) => w == PublicWire(s, b) && v == b
    case RandomBit(_) => v == w.mask
    case Output(reg) => Represents(w, v, regs[reg])
  }

  lemma OperandsRepresented(s: Run, inputs: seq<bool>, i: nat, regs: seq<EvalWire>)
    returns (l: Wire, r: Wire, vl: bool, vr: bool)
    requires |inputs| == |s.prog| && i < |s.prog| && EvalRegs(s, inputs, i, regs)
    ensures s.OpInRange(s.prog[i]) && Meaning(s, s.prog[i], regs, l, r, WireAt(s, i), vl, vr, ValueAt(s, inputs, i))
    ensures s.prog[i].And? ==> l == LeftOf(s, i) && r == RightOf(s, i)
  {
    assert ReadsAssigned(s.prog, i) && s.OpInRange(s.prog[i]);
    var before, op := Plain(s, inputs, i), s.prog[i];
    l, r, vl, vr := WireAt(s, i), WireAt(s, i), false, false;
    if op.And? {
      l, r, vl, vr := LeftOf(s, i), RightOf(s, i), before[op.left], before[op.right];
    } else if op.XorGate? {
      l, r, vl, vr := Dealt(s, i)[op.left], Dealt(s, i)[op.right], before[op.left], before[op.right];
    }
  }

  /** The bits the program outputs. */
  ghost function PlainOutputs(s: Run, inputs: seq<bool>, i: nat): seq<bool>
    requires |inputs| == |s.prog| && i <= |s.prog|
  {
    if i == 0 then [] else
      PlainOutputs(s, inputs, i - 1) + if s.prog[i - 1].Output? then [ValueAt(s, inputs, i - 1)] else []
  }

  /** XOR with one more party's values. */
  lemma OneMore(row: Key, pad: Key, a: Key, b: Key)
    ensures Xor(Xor(Xor(row, pad), a), b) == Xor(row, Xor(pad, Xor(a, b)))
  {
    XorAssoc(Xor(row, pad), a, b);
    XorAssoc(row, pad, Xor(a, b));
  }

  /** Party p's queues before operation i are consumed in step, and its outputs so far are right. */
  ghost predicate InStep(s: Run, p: nat, inputs: seq<bool>, i: nat, wires: seq<Key>, inputMasks: seq<bool>,
                         outputMasks: seq<bool>, circuit: seq<GarbledGate>, gates: nat, outputs: seq<bool>)
    requires p < s.n && |inputs| == |s.prog| && i <= |s.prog|
  {
    && wires == Rest(PartyWires(s, p), i) && inputMasks == Rest(InputMasks(s, p), i)
    && outputMasks == Rest(OutputMasks(s), i) && circuit == Rest(CircuitMsgs(s), i)
    && gates == GateNumber(s, i) && outputs == PlainOutputs(s, inputs, i)
  }

  /** Operation i finds its messages in front of the queues. */
  lemma WiresInFront(s: Run, p: nat, i: nat, wires: seq<Key>)
    requires p < s.n && i < |s.prog| && wires == Rest(PartyWires(s, p), i)
    ensures StoredOf(s.prog[i], WireAt(s, i), p) <= wires
    ensures wires[|StoredOf(s.prog[i], WireAt(s, i), p)|..] == Rest(PartyWires(s, p), i + 1)
  {
    Consumed(wires, PartyWires(s, p), i);
  }

  lemma InputMasksInFront(s: Run, p: nat, i: nat, masks: seq<bool>)
    requires p < s.n && i < |s.prog| && masks == Rest(InputMasks(s, p), i)
    ensures InputMaskOf(s.prog[i], WireAt(s, i), p) <= masks
    ensures masks[|InputMaskOf(s.prog[i], WireAt(s, i), p)|..] == Rest(InputMasks(s, p), i + 1)
  {
    Consumed(masks, InputMasks(s, p), i);
  }

  lemma OutputMasksInFront(s: Run, i: nat, masks: seq<bool>)
    requires i < |s.prog| && masks == Rest(OutputMasks(s), i)
    ensures OutputMaskOf(s.prog[i], WireAt(s, i)) <= masks
    ensures masks[|OutputMaskOf(s.prog[i], WireAt(s, i))|..] == Rest(OutputMasks(s), i + 1)
  {
    Consumed(masks, OutputMasks(s), i);
  }

  lemma AndReady(s: Run, i: nat, l: Wire, r: Wire, circuit: seq<GarbledGate>, g: nat)
    requires i < |s.prog| && circuit == Rest(CircuitMsgs(s), i) && g == GateNumber(s, i) + 1
    requires s.prog[i].And? ==> l == LeftOf(s, i) && r == RightOf(s, i)
    ensures s.prog[i].And? ==> circuit != [] && circuit[0] == GateRows(s, l, r, WireAt(s, i), g)
  {
    if s.prog[i].And? {
      CircuitInFront(s, i, circuit);
      GateOfIs(s, i, g);
    }
  }

  /** Taking operation i's messages off every queue keeps step. */
  lemma StepTaken(s: Run, p: nat, inputs: seq<bool>, i: nat, wires: seq<Key>, inputMasks: seq<bool>,
                  outputMasks: seq<bool>, circuit: seq<GarbledGate>, gates: nat, outputs: seq<bool>)
    requires p < s.n && |inputs| == |s.prog| && i < |s.prog|
    requires InStep(s, p, inputs, i, wires, inputMasks, outputMasks, circuit, gates, outputs)
    ensures |StoredOf(s.prog[i], WireAt(s, i), p)| <= |wires| &&
      |InputMaskOf(s.prog[i], WireAt(s, i), p)| <= |inputMasks|
    ensures |OutputMaskOf(s.prog[i], WireAt(s, i))| <= |outputMasks| && (s.prog[i].And? ==> circuit != [])
    ensures InStep(s, p, inputs, i + 1, wires[|StoredOf(s.prog[i], WireAt(s, i), p)|..],
                   inputMasks[|InputMaskOf(s.prog[i], WireAt(s, i), p)|..],
                   outputMasks[|OutputMaskOf(s.prog[i], WireAt(s, i))|..], circuit[if s.prog[i].And? then 1 else 0..],
                   gates + (if s.prog[i].And? then 1 else 0),
                   outputs + if s.prog[i].Output? then [ValueAt(s, inputs, i)] else [])
  {
    WiresInFront(s, p, i, wires);
    InputMasksInFront(s, p, i, inputMasks);
    OutputMasksInFront(s, i, outputMasks);
    CircuitTaken(s, i, circuit);
  }

  lemma RowOpened(s: Setup, l: Wire, r: Wire, o: Wire, g: nat, a: bool, b: bool, garbled: seq<Key>)
    requires WireOk(s, l) && WireOk(s, r) && WireOk(s, o) && |garbled| == s.n
    requires forall j: nat :: j < s.n ==>
      garbled[j] == Xor(Row(s, l, r, o, g, a, b)[j], Padding(s, l.Keys(a), r.Keys(b), a, b, g, j, s.n))
    ensures garbled == o.Keys(Hidden(l.mask, r.mask, o.mask, a, b))
  {
    forall j: nat | j < s.n ensures garbled[j] == o.Keys(Hidden(l.mask, r.mask, o.mask, a, b))[j] {
      RowOpens(s, l, r, o, g, a, b, j);
    }
  }

  /** The signal bit of the opened key tells the party the external value. */
  lemma OpenedRepresents(s: Setup, l: Wire, r: Wire, o: Wire, vl: bool, vr: bool, a: bool, b: bool, p: nat,
                         garbled: seq<Key>)
    requires WireOk(s, o) && p < s.n && !Lsb(o.k0[p]) && a == (l.mask != vl) && b == (r.mask != vr)
    requires garbled == o.Keys(Hidden(l.mask, r.mask, o.mask, a, b))
    ensures Represents(o, vl && vr, EvalWire(Lsb(garbled[p]), garbled))
  {
    XorLsb(o.k0[p], s.Deltas()[p]);
  }

  class ProgramParty {
    const id: nat
    const delta: Key
    // kept from the PRF phase
    var wires: seq<Key>
    var prfOutputs: seq<PrfTuple>
    var gateCounter: nat
    // the evaluation phase
    var regs: seq<EvalWire>
    var inputMasks: seq<bool>
    var outputMasks: seq<bool>
    var garbledCircuit: seq<GarbledGate>
    var gateCounter2: nat
    var outputs: seq<bool>

    constructor (id: nat, delta: Key, nRegs: nat)
      ensures this.id == id && this.delta == delta && wires == [] && prfOutputs == [] &&
        gateCounter == gateCounter2 == 0
      ensures |regs| == nRegs && inputMasks == outputMasks == [] && garbledCircuit == [] && outputs == []
    {
      this.id := id;
      this.delta := delta;
      wires, prfOutputs, gateCounter := [], [], 0;
      regs := seq(nRegs, _ => EvalWire(false, []));
      inputMasks, outputMasks, garbledCircuit, gateCounter2, outputs := [], [], [], 0, [];
    }

    // ----- The PRF phase -----

    /** compute_prfs_outputs: one tuple of PRF values for every receiving party. */
    method ComputePrfs(s: Setup, l: (Key, Key), r: (Key, Key), g: nat) returns (tuples: seq<PrfTuple>)
      ensures |tuples| == s.n
      ensures forall j :: 0 <= j < s.n ==> tuples[j] == TupleOf(s.prf, l.0, l.1, r.0, r.1, g, j)
    {
      tuples := [];
      for j := 0 to s.n
        invariant |tuples| == j
        invariant forall k :: 0 <= k < j ==> tuples[k] == TupleOf(s.prf, l.0, l.1, r.0, r.1, g, k)
      {
        tuples := tuples + [TupleOf(s.prf, l.0, l.1, r.0, r.1, g, j)];
      }
    }

    ghost predicate PrfState(s: Run, i: nat, own: seq<(Key, Key)>, keys: seq<Key>)
      requires i <= |s.prog|
      reads `wires, `prfOutputs, `gateCounter
    {
      && id < s.n && delta == s.Deltas()[id] && OwnKeys(s, id, i, own)
      && keys == Rest(KeyMsgs(s, id), i) && wires == Upto(PartyWires(s, id), i)
      && prfOutputs == Upto(TupleMsgs(s, id), i) && gateCounter == GateNumber(s, i)
    }

    /** What one operation does in the PRF phase: the dealer's keys come from the front of the queue, the party's
        wires and PRF values go to the end of theirs. */
    method PrfOp(s: Setup, op: Op, own: seq<(Key, Key)>, keys: seq<Key>, ghost w: Wire, ghost l: Wire, ghost r: Wire)
      returns (own': seq<(Key, Key)>, keys': seq<Key>, tuples: seq<PrfTuple>)
      requires s.OpInRange(op) && |own| == s.nRegs && |w.k0| == |w.k1| == s.n && id < s.n
      requires KeysOf(op, w, id) <= keys
      requires op.And? ==> WireOk(s, l) && WireOk(s, r)
      requires op.And? ==> own[op.left] == (l.k0[id], l.k1[id]) && own[op.right] == (r.k0[id], r.k1[id])
      requires op.XorGate? ==> w.k0[id] == Xor(own[op.left].0, own[op.right].0) && w.k1[id] == Xor(w.k0[id], delta)
      requires op.PublicInput? ==> (w.k0[id], w.k1[id]) == if op.value then (delta, ZERO) else (ZERO, delta)
      requires op.Output? ==> own[op.reg] == (w.k0[id], w.k1[id])
      modifies `wires, `prfOutputs, `gateCounter
      ensures own' == own[Target(op) := (w.k0[id], w.k1[id])] && keys' == keys[|KeysOf(op, w, id)|..]
      ensures wires == old(wires) + StoredOf(op, w, id)
      ensures gateCounter == old(gateCounter) + if op.And? then 1 else 0
      ensures prfOutputs == old(prfOutputs) + tuples
      ensures tuples == if op.And? then GateTuples(s, id, l, r, gateCounter) else []
    {
      own', keys', tuples := own, keys, [];
      assert KeysOf(op, w, id) == keys[..|KeysOf(op, w, id)|];
      match op {
        case And(o, left, right) =>
          own' := own[o := (keys[0], keys[1])];
          keys' := keys[2..];
          gateCounter := gateCounter + 1;
          tuples := ComputePrfs(s, own[left], own[right], gateCounter);
          assert tuples == GateTuples(s, id, l, r, gateCounter);
        case XorGate(o, left, right) =>
          var k0 := Xor(own[left].0, own[right].0);
          own' := own[o := (k0, Xor(k0, delta))];
        case Input(o, _) =>
          own' := own[o := (keys[0], keys[1])];
          keys' := keys[2..];
          wires := wires + [keys[0]];
        case PublicInput(o, v) =>
          own' := own[o := if v then (delta, ZERO) else (ZERO, delta)];
        case RandomBit(o) =>
          own' := own[o := (keys[0], keys[1])];
          var all := keys[2..2 + s.n];
          assert all == w.k0;
          keys' := keys[2 + s.n..];
          wires := wires + [keys[0]];
          wires := wires + all;
        case Output(reg) =>
          wires := wires + [own[reg].0];
      }
      prfOutputs := prfOutputs + tuples;
    }

    method PrfStep(s: Run, i: nat, own: seq<(Key, Key)>, keys: seq<Key>)
      returns (own': seq<(Key, Key)>, keys': seq<Key>)
      requires i < |s.prog| && PrfState(s, i, own, keys)
      modifies `wires, `prfOutputs, `gateCounter
      ensures PrfState(s, i + 1, own', keys')
    {
      OwnStep(s, id, i, own);
      Consumed(keys, KeyMsgs(s, id), i);
      var tuples;
      ghost var w := WireAt(s, i);
      own', keys', tuples := PrfOp(s, s.prog[i], own, keys, w, if s.prog[i].And? then LeftOf(s, i) else w,
                                   if s.prog[i].And? then RightOf(s, i) else w);
      assert gateCounter == GateNumber(s, i + 1);
      TupleMsgIs(s, id, i, tuples, gateCounter);
    }

    /** The PRF phase consumes all the dealer's keys. */
    method PrfPhase(s: Run, keys: seq<Key>)
      requires id < s.n && delta == s.Deltas()[id] && keys == Upto(KeyMsgs(s, id), |s.prog|)
      requires wires == [] && prfOutputs == [] && gateCounter == 0
      modifies `wires, `prfOutputs, `gateCounter
      ensures wires == Upto(PartyWires(s, id), |s.prog|) && prfOutputs == Upto(TupleMsgs(s, id), |s.prog|)
    {
      ProducedIsConsumed(KeyMsgs(s, id));
      PrfSteps(s, seq(s.nRegs, _ => (ZERO, ZERO)), keys);
    }

    method PrfSteps(s: Run, own0: seq<(Key, Key)>, keys0: seq<Key>)
      requires PrfState(s, 0, own0, keys0)
      modifies `wires, `prfOutputs, `gateCounter
      ensures wires == Upto(PartyWires(s, id), |s.prog|) && prfOutputs == Upto(TupleMsgs(s, id), |s.prog|)
    {
      var own, keys := own0, keys0;
      for i := 0 to |s.prog|
        invariant PrfState(s, i, own, keys)
      {
        own, keys := PrfStep(s, i, own, keys);
      }
    }

    // ----- The evaluation phase -----

    /** What the dealer sends before the evaluation. */
    method Receive(inputMasks: seq<bool>, outputMasks: seq<bool>, circuit: seq<GarbledGate>)
      modifies `inputMasks, `outputMasks, `garbledCircuit
      ensures this.inputMasks == inputMasks && this.outputMasks == outputMasks && garbledCircuit == circuit
    {
      this.inputMasks, this.outputMasks, garbledCircuit := inputMasks, outputMasks, circuit;
    }

    /** Register::eval: the row picked by the external values, with all parties' PRF values taken off. */
    method EvalGate(s: Setup, left: EvalWire, right: EvalWire, gate: GarbledGate, g: nat, ghost l: Wire, ghost r: Wire,
                    ghost o: Wire, ghost vl: bool, ghost vr: bool) returns (e: EvalWire)
      requires id < s.n && WireOk(s, l) && WireOk(s, r) && WireOk(s, o)
      requires Represents(l, vl, left) && Represents(r, vr, right) && gate == GateRows(s, l, r, o, g)
      requires !Lsb(o.k0[id])
      ensures Represents(o, vl && vr, e)
    {
      hide Padding, XorKeys, Xor, PaddingRow;
      var sigL, sigR := left.external, right.external;
      var entry := (if sigL then 2 else 0) + (if sigR then 1 else 0);
      var row := gate[entry];
      assert row == Row(s, l, r, o, g, sigL, sigR);
      var extL, extR := entry % 2 == 1, entry >= 2;
      assert extL == sigR && extR == sigL;
      var garbled := RemovePadding(s, row, left.entry, right.entry, extL, extR, g);
      RowOpened(s, l, r, o, g, sigL, sigR, garbled);
      OpenedRepresents(s, l, r, o, vl, vr, sigL, sigR, id, garbled);
      e := EvalWire(Lsb(garbled[id]), garbled);
    }

    method RemovePadding(s: Setup, row: seq<Key>, lk: seq<Key>, rk: seq<Key>, extL: bool, extR: bool, g: nat)
      returns (garbled: seq<Key>)
      requires |row| == |lk| == |rk| == s.n
      ensures |garbled| == s.n
      ensures forall j: nat :: j < s.n ==> garbled[j] == Xor(row[j], Padding(s, lk, rk, extR, extL, g, j, s.n))
    {
      garbled := row;
      forall j: nat | j < s.n ensures row[j] == Xor(row[j], ZERO) {
        XorZero(row[j]);
      }
      for i := 0 to s.n
        invariant |garbled| == s.n
        invariant forall j: nat :: j < s.n ==> garbled[j] == Xor(row[j], Padding(s, lk, rk, extR, extL, g, j, i))
      {
        ghost var before := garbled;
        garbled := TakeOff(s, garbled, lk[i], rk[i], extL, extR, g);
        forall j: nat | j < s.n ensures garbled[j] == Xor(row[j], Padding(s, lk, rk, extR, extL, g, j, i + 1)) {
          assert before[j] == Xor(row[j], Padding(s, lk, rk, extR, extL, g, j, i));
          OneMore(row[j], Padding(s, lk, rk, extR, extL, g, j, i), s.prf(lk[i], extL, g, j), s.prf(rk[i], extR, g, j));
        }
      }
    }

    /** One party's left and right PRF values come off every entry. */
    method TakeOff(s: Setup, garbled: seq<Key>, lk: Key, rk: Key, extL: bool, extR: bool, g: nat)
      returns (garbled': seq<Key>)
      ensures |garbled'| == |garbled|
      ensures forall j: nat :: j < |garbled| ==>
        garbled'[j] == Xor(Xor(garbled[j], s.prf(lk, extL, g, j)), s.prf(rk, extR, g, j))
    {
      garbled' := garbled;
      for j := 0 to |garbled|
        invariant |garbled'| == |garbled|
        invariant forall k: nat :: k < |garbled| ==>
          garbled'[k] ==
            if k < j then Xor(Xor(garbled[k], s.prf(lk, extL, g, k)), s.prf(rk, extR, g, k)) else garbled[k]
      {
        garbled' := garbled'[j := Xor(garbled'[j], s.prf(lk, extL, g, j))];
        garbled' := garbled'[j := Xor(garbled'[j], s.prf(rk, extR, g, j))];
      }
    }

    ghost predicate Queues(s: Run, inputs: seq<bool>, i: nat)
      requires |inputs| == |s.prog| && i <= |s.prog|
      reads `wires, `inputMasks, `outputMasks, `garbledCircuit, `gateCounter2, `outputs
    {
      && id < s.n && delta == s.Deltas()[id]
      && InStep(s, id, inputs, i, wires, inputMasks, outputMasks, garbledCircuit, gateCounter2, outputs)
    }

    /** Where the party stands before operation i. */
    ghost predicate Evaluating(s: Run, inputs: seq<bool>, i: nat)
      requires |inputs| == |s.prog| && i <= |s.prog|
      reads this
    {
      Queues(s, inputs, i) && EvalRegs(s, inputs, i, regs)
    }

    /** load_wire: the own 0-key comes from the queue, the 1-key differs by the offset. */
    method LoadWire() returns (own: (Key, Key))
      requires wires != []
      modifies `wires
      ensures own == (old(wires)[0], Xor(old(wires)[0], delta)) && wires == old(wires)[1..]
    {
      own := (wires[0], Xor(wires[0], delta));
      wires := wires[1..];
    }

    /** Register::op in the evaluation: the next gate of the circuit. */
    method EvalAnd(s: Setup, op: Op, ghost l: Wire, ghost r: Wire, ghost o: Wire, ghost vl: bool, ghost vr: bool)
      returns (e: EvalWire)
      requires op.And? && s.OpInRange(op) && |regs| == s.nRegs && id < s.n
      requires WireOk(s, l) && WireOk(s, r) && WireOk(s, o) && !Lsb(o.k0[id])
      requires Represents(l, vl, regs[op.left]) && Represents(r, vr, regs[op.right])
      requires garbledCircuit != [] && garbledCircuit[0] == GateRows(s, l, r, o, gateCounter2 + 1)
      modifies `gateCounter2, `garbledCircuit
      ensures Represents(o, vl && vr, e)
      ensures gateCounter2 == old(gateCounter2) + 1 && garbledCircuit == old(garbledCircuit)[1..]
    {
      hide GateRows;
      gateCounter2 := gateCounter2 + 1;
      var gate := garbledCircuit[0];
      garbledCircuit := garbledCircuit[1..];
      e := EvalGate(s, regs[op.left], regs[op.right], gate, gateCounter2, l, r, o, vl, vr);
    }

    /** A random bit has external value 0 and the stored 0-keys. */
    method EvalRandom(s: Setup, ghost w: Wire, op: Op) returns (e: EvalWire)
      requires op.RandomBit? && id < s.n == |w.k0| && StoredOf(op, w, id) <= wires
      modifies `wires
      ensures Represents(w, w.mask, e) && wires == old(wires)[|StoredOf(op, w, id)|..]
    {
      assert StoredOf(op, w, id) == wires[..1 + s.n];
      assert w.k0 == wires[1..1 + s.n];
      var own := LoadWire();
      e := EvalWire(false, wires[..s.n]);
      wires := wires[s.n..];
    }

    /** output: the key held must be the one the external value stands for; only then there is an output. */
    method EvalOutput(e: EvalWire, op: Op, ghost n: nat, ghost w: Wire, ghost v: bool) returns (ok: bool)
      requires op.Output? && id < n == |w.k0| == |w.k1| == |e.entry| && w.k1[id] == Xor(w.k0[id], delta)
      requires StoredOf(op, w, id) <= wires && OutputMaskOf(op, w) <= outputMasks
      modifies `wires, `outputMasks, `outputs
      ensures ok <==> e.entry[id] == if e.external then w.k1[id] else w.k0[id]
      ensures outputs == if ok then old(outputs) + [w.mask != e.external] else old(outputs)
      ensures Represents(w, v, e) ==> ok && outputs == old(outputs) + [v]
      ensures wires == old(wires)[1..] && outputMasks == old(outputMasks)[1..]
    {
      assert StoredOf(op, w, id)[0] == wires[0] && OutputMaskOf(op, w)[0] == outputMasks[0];
      var own := LoadWire();
      var mask := outputMasks[0];
      outputMasks := outputMasks[1..];
      if e.entry[id] != (if e.external then own.1 else own.0) {
        return false;
      }
      ok, outputs := true, outputs + [mask != e.external];
    }

    /** What an operation other than an input does; false if a key does not match its signal. The ghosts are the
        wires and values of the operation. */
    method EvalLocal(s: Setup, op: Op, ghost l: Wire, ghost r: Wire, ghost w: Wire, ghost vl: bool, ghost vr: bool,
                     ghost v: bool, ghost g: nat)
      returns (ok: bool, e: EvalWire)
      requires !op.Input? && s.OpInRange(op) && |regs| == s.nRegs && id < s.n && WireOk(s, w) && delta == s.Deltas()[id]
      requires StoredOf(op, w, id) <= wires && OutputMaskOf(op, w) <= outputMasks
      requires Meaning(s, op, regs, l, r, w, vl, vr, v)
      requires g == gateCounter2 + 1
      requires op.And? ==> garbledCircuit != [] && garbledCircuit[0] == GateRows(s, l, r, w, g)
      modifies `wires, `outputMasks, `garbledCircuit, `gateCounter2, `outputs
      ensures ok && Represents(w, v, e)
      ensures wires == old(wires)[|StoredOf(op, w, id)|..] && outputMasks == old(outputMasks)[|OutputMaskOf(op, w)|..]
      ensures garbledCircuit == old(garbledCircuit)[if op.And? then 1 else 0..]
      ensures gateCounter2 == old(gateCounter2) + if op.And? then 1 else 0
      ensures outputs == old(outputs) + if op.Output? then [v] else []
    {
      ok := true;
      match op {
        case And(_, _, _) =>
          e := EvalAnd(s, op, l, r, w, vl, vr);
        case XorGate(_, left, right) =>
          XorRepresents(s, l, vl, regs[left], r, vr, regs[right]);
          e := EvalWire(regs[left].external != regs[right].external, XorKeys(regs[left].entry, regs[right].entry));
        case PublicInput(_, b) =>
          e := EvalWire(b, Zeros(s.n));
        case RandomBit(_) =>
          e := EvalRandom(s, w, op);
        case Output(reg) =>
          e := regs[reg];
          ok := EvalOutput(e, op, s.n, w, v);
      }
    }

    method EvalQueued(s: Run, ghost inputs: seq<bool>, i: nat, ghost l: Wire, ghost r: Wire, ghost vl: bool,
                      ghost vr: bool)
      returns (ok: bool, e: EvalWire)
      requires |inputs| == |s.prog| && i < |s.prog| && !s.prog[i].Input? && Queues(s, inputs, i)
      requires |regs| == s.nRegs && s.OpInRange(s.prog[i])
      requires Meaning(s, s.prog[i], regs, l, r, WireAt(s, i), vl, vr, ValueAt(s, inputs, i))
      requires s.prog[i].And? ==> l == LeftOf(s, i) && r == RightOf(s, i)
      modifies `wires, `outputMasks, `garbledCircuit, `gateCounter2, `outputs
      ensures ok && Represents(WireAt(s, i), ValueAt(s, inputs, i), e) && Queues(s, inputs, i + 1)
    {
      hide GateRows, LeftOf, RightOf, WireAt, ValueAt, PartyWires, InputMasks, OutputMasks, CircuitMsgs, Meaning;
      ghost var w, v, g := WireAt(s, i), ValueAt(s, inputs, i), gateCounter2 + 1;
      AndReady(s, i, l, r, garbledCircuit, g);
      WiresInFront(s, id, i, wires);
      OutputMasksInFront(s, i, outputMasks);
      ok, e := EvalLocal(s, s.prog[i], l, r, w, vl, vr, v, g);
      StepTaken(s, id, inputs, i, old(wires), inputMasks, old(outputMasks), old(garbledCircuit), old(gateCounter2),
                old(outputs));
    }

    method EvalOp(s: Run, ghost inputs: seq<bool>, i: nat) returns (ok: bool)
      requires |inputs| == |s.prog| && i < |s.prog| && !s.prog[i].Input? && Evaluating(s, inputs, i)
      modifies this
      ensures ok && Evaluating(s, inputs, i + 1)
    {
      hide WireAt, ValueAt, Meaning, InStep;
      ghost var l, r, vl, vr := OperandsRepresented(s, inputs, i, regs);
      var e;
      ok, e := EvalQueued(s, inputs, i, l, r, vl, vr);
      EvalStep(s, inputs, i, regs, e);
      regs := regs[Target(s.prog[i]) := e];
    }

    /** my_input and other_input: the owner of the bit masks it with the next input mask. */
    method StartInput(op: Op, value: bool, ghost w: Wire) returns (own: (Key, Key), external: bool)
      requires op.Input? && id < |w.k0| == |w.k1| && w.k1[id] == Xor(w.k0[id], delta)
      requires StoredOf(op, w, id) <= wires && InputMaskOf(op, w, id) <= inputMasks
      modifies `wires, `inputMasks
      ensures own == (w.k0[id], w.k1[id]) && (op.from == id ==> external == (w.mask != value))
      ensures wires == old(wires)[|StoredOf(op, w, id)|..] && inputMasks == old(inputMasks)[|InputMaskOf(op, w, id)|..]
    {
      assert StoredOf(op, w, id)[0] == wires[0];
      own := LoadWire();
      external := false;
      if op.from == id {
        assert InputMaskOf(op, w, id)[0] == inputMasks[0];
        external := inputMasks[0] != value;
        inputMasks := inputMasks[1..];
      }
    }

    /** The party's part in the first half of an input. */
    method QueuedInput(s: Run, inputs: seq<bool>, i: nat) returns (own: (Key, Key), external: bool)
      requires |inputs| == |s.prog| && i < |s.prog| && s.prog[i].Input? && Queues(s, inputs, i)
      modifies `wires, `inputMasks
      ensures own == (WireAt(s, i).k0[id], WireAt(s, i).k1[id])
      ensures s.prog[i].from == id ==> external == (WireAt(s, i).mask != inputs[i])
      ensures Queues(s, inputs, i + 1)
    {
      WiresInFront(s, id, i, wires);
      InputMasksInFront(s, id, i, inputMasks);
      own, external := StartInput(s.prog[i], inputs[i], WireAt(s, i));
      StepTaken(s, id, inputs, i, old(wires), old(inputMasks), outputMasks, garbledCircuit, gateCounter2, outputs);
    }

    /** finalize_input: all parties' labels make up the entry. */
    method FinishInput(s: Run, ghost inputs: seq<bool>, i: nat, e: EvalWire)
      requires |inputs| == |s.prog| && i < |s.prog| && s.prog[i].Input? && Queues(s, inputs, i + 1) &&
        EvalRegs(s, inputs, i, regs)
      requires Represents(WireAt(s, i), ValueAt(s, inputs, i), e)
      modifies `regs
      ensures Evaluating(s, inputs, i + 1)
    {
      EvalStep(s, inputs, i, regs, e);
      regs := regs[Target(s.prog[i]) := e];
    }
  }
}
