/** The whole run: the dealer's random phase, all parties' PRF phases, the dealer's garbling phase, and the
    evaluation, in which the parties only meet to exchange input bits and labels. */
module BmrProtocol {
  import opened Blocks
  import opened BmrCircuit
  import opened BmrMessages
  import opened BmrDealer
  import opened BmrParty

  /** One party object per number. */
  ghost predicate Team(s: Run, parties: seq<ProgramParty>) {
    && |parties| == s.n
    && (forall p: nat, q: nat :: p < q < s.n ==> parties[p] != parties[q])
    && (forall p: nat :: p < s.n ==> parties[p].id == p && parties[p].delta == s.Deltas()[p])
  }

  // ----- The PRF phases -----

  ghost predicate PrfsDone(s: Run, party: ProgramParty)
    requires party.id < s.n
    reads party
  {
    && party.wires == Upto(PartyWires(s, party.id), |s.prog|)
    && party.prfOutputs == Upto(TupleMsgs(s, party.id), |s.prog|)
  }

  ghost predicate New(s: Run, party: ProgramParty)
    reads party
  {
    && party.wires == [] && party.prfOutputs == [] && party.gateCounter == party.gateCounter2 == 0
    && |party.regs| == s.nRegs && party.outputs == []
  }

  method PrfPhases(s: Run, parties: seq<ProgramParty>, msgKeys: seq<seq<Key>>)
    requires Team(s, parties) && |msgKeys| == s.n
    requires forall p: nat :: p < s.n ==> New(s, parties[p]) && msgKeys[p] == Upto(KeyMsgs(s, p), |s.prog|)
    modifies parties
    ensures forall p: nat :: p < s.n ==> PrfsDone(s, parties[p]) && Waiting(s, parties[p])
  {
    hide Upto, KeyMsgs, PartyWires, TupleMsgs;
    for p := 0 to s.n
      invariant forall q: nat :: q < p ==> PrfsDone(s, parties[q]) && Waiting(s, parties[q])
      invariant forall q: nat :: p <= q < s.n ==> New(s, parties[q])
    {
      parties[p].PrfPhase(s, msgKeys[p]);
    }
  }

  /** The evaluation has not begun. */
  ghost predicate Waiting(s: Run, party: ProgramParty)
    reads party
  {
    |party.regs| == s.nRegs && party.gateCounter2 == 0 && party.outputs == []
  }

  // ----- The evaluation -----

  /** Every party stands before operation i. */
  ghost predicate AllEvaluating(s: Run, parties: seq<ProgramParty>, inputs: seq<bool>, i: nat)
    requires Team(s, parties) && |inputs| == |s.prog| && i <= |s.prog|
    reads parties
  {
    forall p: nat :: p < s.n ==> parties[p].Evaluating(s, inputs, i)
  }

  /** One operation without communication. */
  method EvalAll(s: Run, parties: seq<ProgramParty>, ghost inputs: seq<bool>, i: nat) returns (ok: bool)
    requires Team(s, parties) && |inputs| == |s.prog| && i < |s.prog| && !s.prog[i].Input? &&
      AllEvaluating(s, parties, inputs, i)
    modifies parties
    ensures ok && AllEvaluating(s, parties, inputs, i + 1)
  {
    hide ProgramParty.Evaluating;
    ok := true;
    for p := 0 to s.n
      invariant ok
      invariant forall q: nat :: q < p ==> parties[q].Evaluating(s, inputs, i + 1)
      invariant forall q: nat :: p <= q < s.n ==> parties[q].Evaluating(s, inputs, i)
    {
      var fine := parties[p].EvalOp(s, inputs, i);
      ok := ok && fine;
    }
  }

  /** The party has taken operation i's messages but not yet set its register. */
  ghost predicate Pending(s: Run, party: ProgramParty, inputs: seq<bool>, i: nat)
    requires |inputs| == |s.prog| && i < |s.prog|
    reads party
  {
    party.Queues(s, inputs, i + 1) && EvalRegs(s, inputs, i, party.regs)
  }

  /** An input bit: its owner broadcasts the masked bit, then every party broadcasts its label for it. */
  method InputAll(s: Run, parties: seq<ProgramParty>, inputs: seq<bool>, i: nat)
    requires Team(s, parties) && |inputs| == |s.prog| && i < |s.prog| && s.prog[i].Input? &&
      AllEvaluating(s, parties, inputs, i)
    modifies parties
    ensures AllEvaluating(s, parties, inputs, i + 1)
  {
    hide ProgramParty.Evaluating, ProgramParty.Queues, EvalRegs, WireAt, ValueAt;
    var owns, external := StartAll(s, parties, inputs, i);
    var labels := seq(s.n, p requires 0 <= p < |owns| => if external then owns[p].1 else owns[p].0);
    AllLabels(s, inputs, i, owns, external, labels);
    hide Represents;
    for p := 0 to s.n
      invariant forall q: nat :: q < p ==> parties[q].Evaluating(s, inputs, i + 1)
      invariant forall q: nat :: p <= q < s.n ==> Pending(s, parties[q], inputs, i)
    {
      parties[p].FinishInput(s, inputs, i, EvalWire(external, labels));
    }
  }

  lemma InputValue(s: Run, inputs: seq<bool>, i: nat)
    requires |inputs| == |s.prog| && i < |s.prog| && s.prog[i].Input?
    ensures ValueAt(s, inputs, i) == inputs[i]
  {
  }

  /** All parties' labels together represent the input. */
  lemma AllLabels(s: Run, inputs: seq<bool>, i: nat, owns: seq<(Key, Key)>, external: bool, labels: seq<Key>)
    requires |inputs| == |s.prog| && i < |s.prog| && |owns| == |labels| == s.n
    requires forall p: nat :: p < s.n ==> owns[p] == (WireAt(s, i).k0[p], WireAt(s, i).k1[p])
    requires external == (WireAt(s, i).mask != ValueAt(s, inputs, i))
    requires forall p: nat :: p < s.n ==> labels[p] == if external then owns[p].1 else owns[p].0
    ensures Represents(WireAt(s, i), ValueAt(s, inputs, i), EvalWire(external, labels))
  {
    hide WireAt, ValueAt;
    assert labels == WireAt(s, i).Keys(external);
  }

  method StartAll(s: Run, parties: seq<ProgramParty>, inputs: seq<bool>, i: nat)
    returns (owns: seq<(Key, Key)>, external: bool)
    requires Team(s, parties) && |inputs| == |s.prog| && i < |s.prog| && s.prog[i].Input? &&
      AllEvaluating(s, parties, inputs, i)
    modifies parties
    ensures |owns| == s.n && forall p: nat :: p < s.n ==> owns[p] == (WireAt(s, i).k0[p], WireAt(s, i).k1[p])
    ensures external == (WireAt(s, i).mask != ValueAt(s, inputs, i))
    ensures forall p: nat :: p < s.n ==> Pending(s, parties[p], inputs, i)
  {
    hide ProgramParty.Queues, EvalRegs, WireAt, ValueAt;
    InputValue(s, inputs, i);
    owns, external := [], false;
    assert s.OpInRange(s.prog[i]);
    for p := 0 to s.n
      invariant |owns| == p && forall q: nat :: q < p ==> owns[q] == (WireAt(s, i).k0[q], WireAt(s, i).k1[q])
      invariant s.prog[i].from < p ==> external == (WireAt(s, i).mask != inputs[i])
      invariant forall q: nat :: q < p ==> Pending(s, parties[q], inputs, i)
      invariant forall q: nat :: p <= q < s.n ==> parties[q].Evaluating(s, inputs, i)
    {
      var own, masked := parties[p].QueuedInput(s, inputs, i);
      owns := owns + [own];
      if p == s.prog[i].from {
        external := masked;
      }
    }
  }

  /** The dealer takes all parties' PRF values. */
  method CollectPrfs(s: Run, parties: seq<ProgramParty>) returns (prfOutputs: seq<seq<PrfTuple>>)
    requires Team(s, parties) && forall p: nat :: p < s.n ==> PrfsDone(s, parties[p])
    ensures |prfOutputs| == s.n && forall p: nat :: p < s.n ==> prfOutputs[p] == Rest(TupleMsgs(s, p), 0)
  {
    hide Upto, Rest, TupleMsgs, PartyWires;
    prfOutputs := [];
    for p := 0 to s.n
      invariant |prfOutputs| == p && forall q: nat :: q < p ==> prfOutputs[q] == Rest(TupleMsgs(s, q), 0)
    {
      assert PrfsDone(s, parties[p]);
      ProducedIsConsumed(TupleMsgs(s, p));
      prfOutputs := prfOutputs + [parties[p].prfOutputs];
    }
  }

  /** Every party gets its input masks, the output masks and the garbled circuit. */
  method Distribute(s: Run, parties: seq<ProgramParty>, inputMasks: seq<seq<bool>>, outputMasks: seq<bool>,
                    circuit: seq<GarbledGate>, ghost inputs: seq<bool>)
    requires Team(s, parties) && |inputMasks| == s.n && |inputs| == |s.prog|
    requires forall p: nat :: p < s.n ==> PrfsDone(s, parties[p]) && Waiting(s, parties[p])
    requires forall p: nat :: p < s.n ==> inputMasks[p] == Upto(InputMasks(s, p), |s.prog|)
    requires outputMasks == Upto(OutputMasks(s), |s.prog|) && circuit == Upto(CircuitMsgs(s), |s.prog|)
    modifies parties
    ensures AllEvaluating(s, parties, inputs, 0)
  {
    hide Upto, Rest, OutputMasks, InputMasks, CircuitMsgs, PartyWires, TupleMsgs;
    ProducedIsConsumed(OutputMasks(s));
    ProducedIsConsumed(CircuitMsgs(s));
    for p := 0 to s.n
      invariant forall q: nat :: q < p ==> parties[q].Evaluating(s, inputs, 0)
      invariant forall q: nat :: p <= q < s.n ==> PrfsDone(s, parties[q]) && Waiting(s, parties[q])
    {
      assert PrfsDone(s, parties[p]) && Waiting(s, parties[p]);
      ProducedIsConsumed(PartyWires(s, p));
      ProducedIsConsumed(InputMasks(s, p));
      parties[p].Receive(inputMasks[p], outputMasks, circuit);
    }
  }

  method Evaluate(s: Run, parties: seq<ProgramParty>, inputs: seq<bool>) returns (ok: bool)
    requires Team(s, parties) && |inputs| == |s.prog| && AllEvaluating(s, parties, inputs, 0)
    modifies parties
    ensures ok && AllEvaluating(s, parties, inputs, |s.prog|)
  {
    ok := true;
    for i := 0 to |s.prog|
      invariant ok && AllEvaluating(s, parties, inputs, i)
    {
      if s.prog[i].Input? {
        InputAll(s, parties, inputs, i);
      } else {
        var fine := EvalAll(s, parties, inputs, i);
        ok := ok && fine;
      }
    }
  }

  // ----- The run -----

  method MakeParties(s: Run) returns (parties: seq<ProgramParty>)
    ensures Team(s, parties) && fresh(parties) && forall p: nat :: p < s.n ==> New(s, parties[p])
  {
    parties := [];
    for p := 0 to s.n
      invariant |parties| == p && fresh(parties)
      invariant forall q: nat, r: nat :: q < r < p ==> parties[q] != parties[r]
      invariant forall q: nat :: q < p ==> parties[q].id == q && parties[q].delta == s.Deltas()[q] && New(s, parties[q])
    {
      var party := new ProgramParty(p, s.Deltas()[p], s.nRegs);
      parties := parties + [party];
    }
  }

  /** The party has the outputs of the circuit in the clear, and nothing is left in its queues. */
  ghost predicate Finished(s: Run, party: ProgramParty, inputs: seq<bool>)
    requires |inputs| == |s.prog|
    reads party
  {
    && party.outputs == PlainOutputs(s, inputs, |s.prog|)
    && party.wires == [] && party.inputMasks == [] && party.outputMasks == [] && party.garbledCircuit == []
  }

  lemma AllFinished(s: Run, parties: seq<ProgramParty>, inputs: seq<bool>)
    requires Team(s, parties) && |inputs| == |s.prog| && AllEvaluating(s, parties, inputs, |s.prog|)
    ensures forall p: nat :: p < s.n ==> Finished(s, parties[p], inputs)
  {
    forall p: nat | p < s.n ensures Finished(s, parties[p], inputs) {
      IsFinished(s, parties[p], inputs);
    }
  }

  lemma IsFinished(s: Run, party: ProgramParty, inputs: seq<bool>)
    requires |inputs| == |s.prog| && party.Evaluating(s, inputs, |s.prog|)
    ensures Finished(s, party, inputs)
  {
  }

  /** No key check fails, and every party gets the outputs of the circuit in the clear. */
  method RunBmr(s: Run, inputs: seq<bool>) returns (parties: seq<ProgramParty>, ok: bool)
    requires |inputs| == |s.prog|
    ensures Team(s, parties) && fresh(parties) && ok
    ensures forall p: nat :: p < s.n ==> Finished(s, parties[p], inputs)
  {
    hide Upto, Rest, OutputMasks, InputMasks, CircuitMsgs, PartyWires, TupleMsgs, KeyMsgs, Finished,
      ProgramParty.Evaluating;
    var dealer := new TrustedProgramParty(s.n);
    dealer.RandomPhase(s);
    forall p: nat | p < s.n
      ensures dealer.msgKeys[p] == Upto(KeyMsgs(s, p), |s.prog|) &&
        dealer.inputMasks[p] == Upto(InputMasks(s, p), |s.prog|)
    {
      assert DealtTo(s, p, |s.prog|, dealer.msgKeys[p], dealer.inputMasks[p]);
    }
    parties := MakeParties(s);
    PrfPhases(s, parties, dealer.msgKeys);
    var prfOutputs := CollectPrfs(s, parties);
    dealer.GarblingPhase(s, prfOutputs);
    Distribute(s, parties, dealer.inputMasks, dealer.outputMasks, dealer.circuit, inputs);
    ok := Evaluate(s, parties, inputs);
    AllFinished(s, parties, inputs);
  }
}
