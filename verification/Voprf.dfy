/** The two sides of the garbled-circuit VOPRF, connected by a queue of blocks from server to client
    and by ideal oblivious transfer. */
module Voprf {
  import opened Bits
  import opened Blocks
  import opened GarbledCircuit
  import opened ProbeResilient
  import opened Serialization
  import opened Merkle

  // ----- Primitives -----

  /** AES with key and plaintext, and SHA-256; nothing is assumed about either. */
  datatype Primitives = Primitives(aes: (Block, Block) -> Block, sha: seq<bv8> -> Hash)

  function FixedKey(p: Primitives, key: Block): Block -> Block {
    (x: Block) => p.aes(key, x)
  }

  function H1(p: Primitives, x: seq<bv8>): Block {
    p.sha(x)[..16]
  }

  function H2(p: Primitives, x: seq<bv8>, z: Block): Hash {
    p.sha(x + z)
  }

  /** The function the protocol is for: F_k(x) = H2(x, AES_k(H1(x))). */
  function Fk(p: Primitives, k: Block, x: seq<bv8>): Hash {
    H2(p, x, p.aes(k, H1(p, x)))
  }

  lemma TransferNumber(i: nat, j: nat, s: nat)
    requires j < 128 && s < 2
    ensures var k := 256 * i + 2 * j + s; k / 256 == i && k % 256 / 2 == j && k % 2 == s
  {
  }

  // ----- The server's secrets -----

  datatype CircuitRandom = CircuitRandom(deltaSeed: Block, inputs: seq<Block>, shares: seq<Block>)

  /** Everything the server draws: its key, the hash key, and the randomness of every circuit. */
  datatype Server = Server(p: Primitives, circ: Circuit, oprfKey: Block, mmoKey: Block, random: seq<CircuitRandom>) {

    /** A circuit with 128 key bits, 128 plaintext bits and 128 output bits that reads no input before driving it,
        small enough for 64-bit lengths. */
    ghost predicate Valid() {
      && circ.WellFormed() && circ.InputsSettled()
      && circ.nInput0 == circ.nInput1 == |circ.outputs| == 128
      && |circ.gates| < 0x100_0000_0000_0000 && |random| < 0x1_0000_0000_0000
      && (forall i :: 0 <= i < |random| ==> |random[i].inputs| == 256 && |random[i].shares| == 128)
    }

    ghost function Gc(i: nat): (gr: GarbleResult)
      requires Valid() && i < |random|
      ensures |gr.wire0| == circ.nWires >= 256 && |gr.outDecode| == 128 && gr.delta == MakeDelta(random[i].deltaSeed)
    {
      Garbled(circ, FixedKey(p, mmoKey), MakeDelta(random[i].deltaSeed), random[i].inputs)
    }

    ghost function Garble(): (b: Batch)
      requires Valid()
      ensures b.Valid()
    {
      Batch(p, oprfKey, mmoKey, seq(|random|, i requires 0 <= i < |random| => Gc(i)),
            seq(|random|, i requires 0 <= i < |random| => random[i].shares))
    }
  }

  /** The server's state once all circuits are garbled. */
  datatype Batch = Batch(p: Primitives, oprfKey: Block, mmoKey: Block, gcs: seq<GarbleResult>,
                         shareRandom: seq<seq<Block>>) {
    function M(): nat {
      |gcs|
    }

    ghost predicate Valid() {
      && |shareRandom| == |gcs|
      && (forall i :: 0 <= i < |gcs| ==> |gcs[i].wire0| >= 256 && |gcs[i].outDecode| == 128 && |shareRandom[i]| == 128)
    }

    ghost function Tables(i: nat): TablesMsg
      requires Valid() && i < M()
    {
      MessageFor(p, mmoKey, gcs[i])
    }

    ghost function ShareLabels(i: nat, j: nat): ShareLabelPair
      requires Valid() && i < M() && j < 128
    {
      MakeShareLabels(gcs[i].wire0[128 + j], gcs[i].delta, shareRandom[i][j])
    }

    ghost function KeyLabels(i: nat): (l: seq<Block>)
      requires Valid() && i < M()
      ensures |l| == 128
    {
      seq(128, j requires 0 <= j < 128 => LabelForBit(gcs[i].wire0[j], gcs[i].delta, BlockToBits(oprfKey)[j]))
    }

    /** The label pair for share s of plaintext bit j in circuit i. */
    ghost function Offer(i: nat, j: nat, s: nat): (Block, Block)
      requires Valid() && i < M() && j < 128
    {
      var sp := ShareLabels(i, j);
      var l := if s == 0 then sp.s00 else sp.s10;
      (l, Xor(l, gcs[i].delta))
    }

    /** The label pairs in the order of the oblivious transfers: circuit, bit, share. */
    ghost function Offers(): (o: seq<(Block, Block)>)
      requires Valid()
      ensures |o| == 256 * M()
    {
      seq(256 * M(), k requires 0 <= k < 256 * M() => Offer(k / 256, k % 256 / 2, k % 2))
    }

    lemma OfferAt(i: nat, j: nat, s: nat)
      requires Valid() && i < M() && j < 128 && s < 2
      ensures 256 * i + 2 * j + s < 256 * M()
      ensures Offers()[256 * i + 2 * j + s] == Offer(i, j, s)
    {
      TransferNumber(i, j, s);
      var k := 256 * i + 2 * j + s;
      assert k < 256 * M();
      assert Offers()[k] == Offer(k / 256, k % 256 / 2, k % 2);
    }

    lemma OfferPair(i: nat, j: nat)
      requires Valid() && i < M() && j < 128
      ensures 256 * i + 2 * j + 1 < 256 * M()
      ensures Offers()[256 * i + 2 * j] == Offer(i, j, 0) && Offers()[256 * i + 2 * j + 1] == Offer(i, j, 1)
    {
      hide Valid, Offer, Offers;
      OfferAt(i, j, 0);
      OfferAt(i, j, 1);
    }

    ghost function GcHashes(n: nat): seq<bv8>
      requires Valid() && n <= M()
    {
      if n == 0 then [] else GcHashes(n - 1) + GcHash(p, gcs[n - 1].tables)
    }
  }

  ghost function MessageFor(p: Primitives, mmoKey: Block, gr: GarbleResult): TablesMsg
    requires |gr.wire0| >= 256
  {
    TablesMsg(mmoKey, gr.delta, gr.tables, gr.wire0[..128], gr.outDecode, GcHash(p, gr.tables),
              RootOfPairs(p.sha, LabelPairs(gr.wire0, gr.delta)))
  }

  function GcHash(p: Primitives, tables: seq<AndGateTable>): Hash {
    p.sha(Flat(Rows(tables)))
  }

  /** The circuit hash is over the two rows of every table, table after table. */
  lemma TableBytes(tables: seq<AndGateTable>, i: nat)
    requires i < |tables|
    ensures |Flat(Rows(tables))| == 32 * |tables|
    ensures Flat(Rows(tables))[32 * i..32 * i + 32] == tables[i].T0 + tables[i].T1
  {
    hide Rows, Flat;
    var rows := Rows(tables);
    FlatAt(rows, 2 * i);
    FlatAt(rows, 2 * i + 1);
    assert Flat(rows)[32 * i..32 * i + 32] == Flat(rows)[32 * i..32 * i + 16] + Flat(rows)[32 * i + 16..32 * i + 32];
  }

  /** Equal circuit hashes mean equal tables or expose a collision. */
  lemma GcHashBinds(p: Primitives, tables: seq<AndGateTable>, others: seq<AndGateTable>)
    requires GcHash(p, tables) == GcHash(p, others)
    ensures tables == others || Collides(p.sha)
  {
    if Flat(Rows(tables)) == Flat(Rows(others)) {
      if tables != [] { TableBytes(tables, 0); }
      if others != [] { TableBytes(others, 0); }
      forall i | 0 <= i < |tables| ensures tables[i] == others[i] {
        TableBytes(tables, i);
        TableBytes(others, i);
        SameHalves(tables[i].T0, tables[i].T1, others[i].T0, others[i].T1);
      }
    }
  }

  lemma SameHalves(a: Block, b: Block, c: Block, d: Block)
    requires a + b == c + d
    ensures a == c && b == d
  {
    assert a == (a + b)[..16] && c == (c + d)[..16];
    assert b == (a + b)[16..] && d == (c + d)[16..];
  }

  /** The label pairs of the evaluator's input wires. */
  function LabelPairs(wire0: seq<Block>, delta: Block): seq<(Block, Block)>
    requires |wire0| >= 256
  {
    seq(128, i requires 0 <= i < 128 => (wire0[128 + i], Xor(wire0[128 + i], delta)))
  }

  /** The chosen-message layer: both labels of every pair masked with the pads of the random transfer. */
  ghost function Masked(pads: seq<(Block, Block)>, offers: seq<(Block, Block)>): (m: seq<Block>)
    requires |pads| == |offers|
    ensures |m| == 2 * |offers|
  {
    seq(2 * |offers|, k requires 0 <= k < 2 * |offers| =>
      if k % 2 == 0 then Xor(pads[k / 2].0, offers[k / 2].0) else Xor(pads[k / 2].1, offers[k / 2].1))
  }

  lemma MaskedAt(pads: seq<(Block, Block)>, offers: seq<(Block, Block)>, k: nat)
    requires |pads| == |offers| && k < |offers|
    ensures Masked(pads, offers)[2 * k] == Xor(pads[k].0, offers[k].0)
    ensures Masked(pads, offers)[2 * k + 1] == Xor(pads[k].1, offers[k].1)
  {
  }

  // ----- The transcript -----

  ghost function Framing(blobs: seq<seq<bv8>>): seq<Block> {
    if blobs == [] then [] else Framed(blobs[0]) + Framing(blobs[1..])
  }

  lemma {:induction false} FramingSnoc(blobs: seq<seq<bv8>>, blob: seq<bv8>)
    ensures Framing(blobs + [blob]) == Framing(blobs) + Framed(blob)
  {
    var all := blobs + [blob];
    if blobs == [] {
      assert all[1..] == [];
    } else {
      FramingSnoc(blobs[1..], blob);
      assert all[0] == blobs[0] && all[1..] == blobs[1..] + [blob];
      Regroup(Framed(blobs[0]), Framing(blobs[1..]), Framed(blob));
    }
  }

  lemma Regroup(a: seq<Block>, b: seq<Block>, c: seq<Block>)
    ensures a + (b + c) == a + b + c
  {
  }

  ghost predicate Sendable(blobs: seq<seq<bv8>>) {
    forall i :: 0 <= i < |blobs| ==> |blobs[i]| < U64_LIMIT
  }

  method SendAll(channel: seq<Block>, blobs: seq<seq<bv8>>, ghost sent: seq<seq<bv8>>) returns (channel': seq<Block>)
    requires channel == Framing(sent)
    ensures channel' == Framing(sent + blobs)
  {
    hide Framing;
    channel' := channel;
    assert sent + blobs[..0] == sent;
    for i := 0 to |blobs|
      invariant channel' == Framing(sent + blobs[..i])
    {
      FramingSnoc(sent + blobs[..i], blobs[i]);
      assert sent + blobs[..i + 1] == sent + blobs[..i] + [blobs[i]];
      channel' := SendBlob(channel', blobs[i]);
    }
    assert blobs[..|blobs|] == blobs;
  }

  lemma FirstArrives(blobs: seq<seq<bv8>>)
    requires blobs != [] && |blobs[0]| < U64_LIMIT
    ensures Unframed(Framing(blobs)) == Some((blobs[0], Framing(blobs[1..])))
  {
    hide Framed, Unframed;
    BlobArrives(blobs[0], Framing(blobs[1..]));
  }

  method ReceiveMany(channel: seq<Block>, n: nat, ghost part: seq<seq<bv8>>, ghost rest: seq<seq<bv8>>)
    returns (blobs: seq<seq<bv8>>, channel': seq<Block>)
    requires n == |part| && Sendable(part) && channel == Framing(part + rest)
    ensures blobs == part && channel' == Framing(rest)
  {
    hide Framing, Unframed;
    blobs, channel' := [], channel;
    for i := 0 to n
      invariant blobs == part[..i] && channel' == Framing(part[i..] + rest)
    {
      ghost var q := part[i..] + rest;
      assert q[0] == part[i] && q[1..] == part[i + 1..] + rest;
      FirstArrives(q);
      var blob;
      blob, channel' := RecvBlob(channel');
      blobs := blobs + [blob];
    }
    assert part[n..] + rest == rest;
  }

  /** The messages of one session that matter to the client. */
  datatype Messages = Messages(meta: seq<bv8>, tables: seq<seq<bv8>>, masks: seq<bv8>, keys: seq<seq<bv8>>,
                               key: seq<bv8>)

  /** The order of the blobs after the first two; the tables go before or after the masks. */
  ghost function Body(online: bool, r: Messages, proof: seq<bv8>): seq<seq<bv8>> {
    (if online then [] else r.tables) + ([r.masks] + ((if online then r.tables else []) + (r.keys + [proof, r.key])))
  }

  ghost function Session(online: bool, cm: seq<bv8>, r: Messages, proof: seq<bv8>): seq<seq<bv8>> {
    [cm, r.meta] + Body(online, r, proof)
  }

  method ReceiveBody(online: bool, m: nat, channel: seq<Block>, ghost sent: Messages, ghost proof: seq<bv8>)
    returns (tables: seq<seq<bv8>>, masks: seq<bv8>, keys: seq<seq<bv8>>, proof': seq<bv8>, key: seq<bv8>)
    requires |sent.tables| == |sent.keys| == m && Sendable(Body(online, sent, proof))
    requires channel == Framing(Body(online, sent, proof))
    ensures tables == sent.tables && masks == sent.masks && keys == sent.keys && proof' == proof && key == sent.key
  {
    ghost var early, late := if online then [] else sent.tables, if online then sent.tables else [];
    ghost var q4 := [proof, sent.key];
    ghost var q3 := sent.keys + q4;
    ghost var q2 := late + q3;
    ghost var q1 := [sent.masks] + q2;
    SendableParts(early, q1);
    SendableParts([sent.masks], q2);
    SendableParts(late, q3);
    SendableParts(sent.keys, q4);
    var tables0, tables1, rest, mask, tail;
    tables0, rest := ReceiveMany(channel, if online then 0 else m, early, q1);
    mask, rest := ReceiveMany(rest, 1, [sent.masks], q2);
    tables1, rest := ReceiveMany(rest, if online then m else 0, late, q3);
    keys, rest := ReceiveMany(rest, m, sent.keys, q4);
    assert q4 + [] == q4;
    tail, rest := ReceiveMany(rest, 2, q4, []);
    tables, masks, proof', key := if online then tables1 else tables0, mask[0], tail[0], tail[1];
  }

  lemma SendableParts(a: seq<seq<bv8>>, b: seq<seq<bv8>>)
    requires Sendable(a + b)
    ensures Sendable(a) && Sendable(b)
  {
    forall i | 0 <= i < |a| ensures |a[i]| < U64_LIMIT {
      assert (a + b)[i] == a[i];
    }
    forall i | 0 <= i < |b| ensures |b[i]| < U64_LIMIT {
      assert (a + b)[|a| + i] == b[i];
    }
  }

  // ----- The server -----

  datatype Config = Config(m: nat, nOt: nat, tablesOnline: bool)

  ghost function TableBlobs(b: Batch): (r: seq<seq<bv8>>)
    requires b.Valid()
    ensures |r| == b.M()
  {
    seq(b.M(), i requires 0 <= i < b.M() => Serialized(b.Tables(i)))
  }

  ghost function KeyBlobs(b: Batch): (r: seq<seq<bv8>>)
    requires b.Valid()
    ensures |r| == b.M()
  {
    seq(b.M(), i requires 0 <= i < b.M() => Flat(b.KeyLabels(i)))
  }

  ghost function Sent(b: Batch, pads: seq<(Block, Block)>): Messages
    requires b.Valid() && |pads| == 256 * b.M()
  {
    Messages(LittleEndian(b.M(), 8) + b.GcHashes(b.M()), TableBlobs(b), Flat(Masked(pads, b.Offers())), KeyBlobs(b),
             b.oprfKey)
  }

  method GarbleBatch(s: Server) returns (b: Batch)
    requires s.Valid()
    ensures b == s.Garble()
  {
    var gcs: seq<GarbleResult> := [];
    for i := 0 to |s.random|
      invariant gcs == s.Garble().gcs[..i]
    {
      var gr := GarbleCircuit(s.circ, FixedKey(s.p, s.mmoKey), s.random[i].deltaSeed, s.random[i].inputs);
      assert gr == s.Gc(i) == s.Garble().gcs[i];
      gcs := gcs + [gr];
    }
    b := Batch(s.p, s.oprfKey, s.mmoKey, gcs, seq(|s.random|, i requires 0 <= i < |s.random| => s.random[i].shares));
    assert b.gcs == s.Garble().gcs && b.shareRandom == s.Garble().shareRandom;
  }

  method SerializeBatch(b: Batch) returns (tables: seq<seq<bv8>>)
    requires b.Valid()
    ensures tables == TableBlobs(b)
  {
    hide GcHash, Serialized, RootOfPairs;
    tables := [];
    for i := 0 to b.M()
      invariant tables == TableBlobs(b)[..i]
    {
      var gr := b.gcs[i];
      var root := MerkleRootPairs(b.p.sha, LabelPairs(gr.wire0, gr.delta));
      var blob := SerializeTables(TablesMsg(b.mmoKey, gr.delta, gr.tables, gr.wire0[..128], gr.outDecode,
                                            GcHash(b.p, gr.tables), root));
      assert blob == TableBlobs(b)[i];
      tables := tables + [blob];
    }
  }

  method KeyLabelBlobs(b: Batch) returns (keys: seq<seq<bv8>>)
    requires b.Valid()
    ensures keys == KeyBlobs(b)
  {
    keys := [];
    for i := 0 to b.M()
      invariant keys == KeyBlobs(b)[..i]
    {
      var blob := KeyLabelBlob(b, i);
      keys := keys + [blob];
    }
  }

  method KeyLabelBlob(b: Batch, i: nat) returns (blob: seq<bv8>)
    requires b.Valid() && i < b.M()
    ensures blob == Flat(b.KeyLabels(i))
  {
    var bits := BlockToBits(b.oprfKey);
    var labels: seq<Block> := [];
    for j := 0 to 128
      invariant labels == b.KeyLabels(i)[..j]
    {
      labels := labels + [LabelForBit(b.gcs[i].wire0[j], b.gcs[i].delta, bits[j])];
    }
    blob := PushBlocks([], labels);
    assert labels == b.KeyLabels(i) && [] + Flat(labels) == Flat(labels);
  }

  lemma FourMore<T>(m: seq<T>, i: nat)
    requires i + 4 <= |m|
    ensures m[..i + 4] == m[..i] + [m[i], m[i + 1], m[i + 2], m[i + 3]]
  {
  }

  lemma MaskedPrefix(pads: seq<(Block, Block)>, offers: seq<(Block, Block)>, k: nat)
    requires |pads| == |offers| && k + 1 < |offers|
    ensures var m := Masked(pads, offers);
            m[..2 * k + 4] == m[..2 * k] + [Xor(pads[k].0, offers[k].0), Xor(pads[k].1, offers[k].1),
                                            Xor(pads[k + 1].0, offers[k + 1].0), Xor(pads[k + 1].1, offers[k + 1].1)]
  {
    hide Masked, Xor;
    MaskedAt(pads, offers, k);
    MaskedAt(pads, offers, k + 1);
    FourMore(Masked(pads, offers), 2 * k);
  }

  /** Appends the four masked labels of one plaintext bit, transfers k and k + 1. */
  method MaskBit(masks: seq<Block>, pads: seq<(Block, Block)>, k: nat, sp: ShareLabelPair, delta: Block,
                 ghost offers: seq<(Block, Block)>) returns (masks': seq<Block>)
    requires |pads| == |offers| && k + 1 < |offers|
    requires offers[k] == (sp.s00, Xor(sp.s00, delta)) && offers[k + 1] == (sp.s10, Xor(sp.s10, delta))
    requires masks == Masked(pads, offers)[..2 * k]
    ensures masks' == Masked(pads, offers)[..2 * k + 4]
  {
    var c00, c01 := Xor(pads[k].0, sp.s00), Xor(pads[k].1, Xor(sp.s00, delta));
    var c10, c11 := Xor(pads[k + 1].0, sp.s10), Xor(pads[k + 1].1, Xor(sp.s10, delta));
    MaskedPrefix(pads, offers, k);
    masks' := masks + [c00, c01, c10, c11];
  }

  /** The offers of circuit i are the pairs its share labels give. */
  ghost predicate OffersOf(b: Batch, i: nat, offers: seq<(Block, Block)>)
    requires b.Valid() && i < b.M() && |offers| == 256 * b.M()
  {
    forall j :: 0 <= j < 128 ==>
      offers[256 * i + 2 * j] == b.Offer(i, j, 0) && offers[256 * i + 2 * j + 1] == b.Offer(i, j, 1)
  }

  lemma OffersInOrder(b: Batch, i: nat)
    requires b.Valid() && i < b.M()
    ensures OffersOf(b, i, b.Offers())
  {
    var offers := b.Offers();
    forall j | 0 <= j < 128
      ensures offers[256 * i + 2 * j] == b.Offer(i, j, 0) && offers[256 * i + 2 * j + 1] == b.Offer(i, j, 1)
    {
      b.OfferPair(i, j);
    }
  }

  /** The masked labels of circuit i's plaintext bits. */
  method MaskCircuit(b: Batch, i: nat, pads: seq<(Block, Block)>, masks: seq<Block>, ghost offers: seq<(Block, Block)>)
    returns (masks': seq<Block>)
    requires b.Valid() && i < b.M() && |pads| == |offers| == 256 * b.M() && OffersOf(b, i, offers)
    requires masks == Masked(pads, offers)[..512 * i]
    ensures masks' == Masked(pads, offers)[..512 * i + 512]
  {
    masks' := masks;
    for j := 0 to 128
      invariant masks' == Masked(pads, offers)[..512 * i + 4 * j]
    {
      var sp := MakeShareLabels(b.gcs[i].wire0[128 + j], b.gcs[i].delta, b.shareRandom[i][j]);
      assert offers[256 * i + 2 * j] == b.Offer(i, j, 0) && offers[256 * i + 2 * j + 1] == b.Offer(i, j, 1);
      masks' := MaskBit(masks', pads, 256 * i + 2 * j, sp, b.gcs[i].delta, offers);
    }
  }

  method MaskAll(b: Batch, pads: seq<(Block, Block)>) returns (blob: seq<bv8>)
    requires b.Valid() && |pads| == 256 * b.M()
    ensures blob == Flat(Masked(pads, b.Offers()))
  {
    var masks: seq<Block> := [];
    for i := 0 to b.M()
      invariant masks == Masked(pads, b.Offers())[..512 * i]
    {
      OffersInOrder(b, i);
      masks := MaskCircuit(b, i, pads, masks, b.Offers());
    }
    assert masks == Masked(pads, b.Offers());
    blob := PushBlocks([], masks);
    assert [] + Flat(masks) == Flat(masks);
  }

  /** The batch size and the hashes of all circuits. */
  method MetaBlob(b: Batch) returns (meta: seq<bv8>)
    requires b.Valid()
    ensures meta == LittleEndian(b.M(), 8) + b.GcHashes(b.M())
  {
    hide LittleEndian, GcHash;
    meta := PushU64([], b.M());
    for i := 0 to b.M()
      invariant meta == LittleEndian(b.M(), 8) + b.GcHashes(i)
    {
      var hash: seq<bv8> := GcHash(b.p, b.gcs[i].tables);
      AppendBytes(LittleEndian(b.M(), 8), b.GcHashes(i), hash);
      meta := meta + hash;
    }
  }

  lemma AppendBytes(a: seq<bv8>, b: seq<bv8>, c: seq<bv8>)
    ensures a + b + c == a + (b + c)
  {
  }

  /** run_server: garbles everything, then sends everything; `pads` are the messages of the random transfer. */
  method RunServer(cfg: Config, s: Server, pads: seq<(Block, Block)>, cm: seq<bv8>, proof: seq<bv8>)
    returns (channel: seq<Block>)
    requires s.Valid() && cfg.m == |s.random| && cfg.nOt == 256 * cfg.m == |pads|
    ensures channel == Framing(Session(cfg.tablesOnline, cm, Sent(s.Garble(), pads), proof))
  {
    var b := GarbleBatch(s);
    var meta := MetaBlob(b);
    var tables := SerializeBatch(b);
    var masks := MaskAll(b, pads);
    var keys := KeyLabelBlobs(b);
    channel := SendSession(cfg.tablesOnline, cm, Messages(meta, tables, masks, keys, b.oprfKey), proof);
  }

  method SendSession(online: bool, cm: seq<bv8>, r: Messages, proof: seq<bv8>) returns (channel: seq<Block>)
    ensures channel == Framing(Session(online, cm, r, proof))
  {
    var sent := [cm, r.meta];
    channel := SendAll([], sent, []);
    assert [] + sent == sent;
    var early := if online then [] else r.tables;
    channel := SendAll(channel, early, sent);
    sent := sent + early;
    channel := SendAll(channel, [r.masks], sent);
    sent := sent + [r.masks];
    var late := if online then r.tables else [];
    channel := SendAll(channel, late, sent);
    sent := sent + late;
    channel := SendAll(channel, r.keys, sent);
    sent := sent + r.keys;
    channel := SendAll(channel, [proof, r.key], sent);
    Reassociate([cm, r.meta], early, [r.masks], late, r.keys, [proof, r.key]);
  }

  lemma Reassociate<T>(a: seq<T>, b: seq<T>, c: seq<T>, d: seq<T>, e: seq<T>, f: seq<T>)
    ensures a + b + c + d + e + f == a + (b + (c + (d + (e + f))))
  {
    assert a + b + c + d + e + f == a + b + c + d + (e + f);
    assert a + b + c + d + (e + f) == a + b + c + (d + (e + f));
    assert a + b + c + (d + (e + f)) == a + b + (c + (d + (e + f)));
  }

  // ----- The client -----

  ghost function ShareChoices(p: Primitives, x: seq<bv8>, random: seq<bv8>): (c: seq<bool>)
    requires |random| == 128
    ensures |c| == 256
  {
    var shares := Shares(BlockToBits(H1(p, x)), random);
    seq(256, k requires 0 <= k < 256 => shares[k] & 1 != 0)
  }

  /** The choice bits of the first n inputs: the shares of the bits of H1(x). */
  ghost function Choices(p: Primitives, xs: seq<seq<bv8>>, random: seq<seq<bv8>>, n: nat): (c: seq<bool>)
    requires n <= |xs| == |random| && forall i :: 0 <= i < |random| ==> |random[i]| == 128
    ensures |c| == 256 * n
  {
    if n == 0 then [] else Choices(p, xs, random, n - 1) + ShareChoices(p, xs[n - 1], random[n - 1])
  }

  lemma {:induction false} ChoicesAt(p: Primitives, xs: seq<seq<bv8>>, random: seq<seq<bv8>>, n: nat, i: nat, k: nat)
    requires i < n <= |xs| == |random| && (forall i :: 0 <= i < |random| ==> |random[i]| == 128) && k < 256
    ensures Choices(p, xs, random, n)[256 * i + k] == ShareChoices(p, xs[i], random[i])[k]
  {
    if i < n - 1 {
      ChoicesAt(p, xs, random, n - 1, i, k);
    }
  }

  /** The client hashes its inputs, shares their bits and uses the shares as transfer choices. */
  method ClientChoose(p: Primitives, xs: seq<seq<bv8>>, random: seq<seq<bv8>>) returns (choices: seq<bool>)
    requires |xs| == |random| && forall i :: 0 <= i < |random| ==> |random[i]| == 128
    ensures choices == Choices(p, xs, random, |xs|)
  {
    choices := [];
    for i := 0 to |xs|
      invariant choices == Choices(p, xs, random, i)
    {
      var shares := EncodeShares(BlockToBits(H1(p, xs[i])), random[i]);
      choices := choices + seq(256, k requires 0 <= k < 256 => shares[k] & 1 != 0);
    }
  }

  /** The contract of oblivious transfer: the receiver gets the message it chose. */
  function Transferred(pads: seq<(Block, Block)>, choices: seq<bool>): (o: seq<Block>)
    requires |pads| == |choices|
    ensures |o| == |pads|
  {
    seq(|pads|, k requires 0 <= k < |pads| => if choices[k] then pads[k].1 else pads[k].0)
  }

  method ClientUnmask(masks: seq<bv8>, otOut: seq<Block>, choices: seq<bool>) returns (labels: seq<Block>)
    requires |otOut| == |choices| && |masks| >= 32 * |choices|
    ensures |labels| == |choices|
    ensures forall k :: 0 <= k < |choices| ==>
      labels[k] == Xor(otOut[k], TakeBlocks(masks, 2 * |choices|)[if choices[k] then 2 * k + 1 else 2 * k])
  {
    var blocks, _ := TakeBlocksFrom(masks, 0, 2 * |choices|);
    assert masks[0..] == masks;
    labels := seq(|choices|, k requires 0 <= k < |choices| =>
      Xor(otOut[k], if choices[k] then blocks[2 * k + 1] else blocks[2 * k]));
  }

  /** Unmasking leaves exactly the offered labels the client chose. */
  lemma UnmaskedAreOffers(pads: seq<(Block, Block)>, offers: seq<(Block, Block)>, choices: seq<bool>, k: nat)
    requires |pads| == |offers| == |choices| && k < |pads|
    ensures Xor(Transferred(pads, choices)[k], Masked(pads, offers)[if choices[k] then 2 * k + 1 else 2 * k])
            == if choices[k] then offers[k].1 else offers[k].0
  {
    MaskedAt(pads, offers, k);
    XorCancel(pads[k].0, offers[k].0);
    XorCancel(pads[k].1, offers[k].1);
  }

  /** The labels the client feeds into circuit i: the server's key labels and its own recombined shares. */
  function InputLabelsFor(keyLabels: seq<Block>, labels: seq<Block>, i: nat): (l: seq<Block>)
    requires |keyLabels| == 128 && 256 * i + 256 <= |labels|
    ensures |l| == 256
  {
    keyLabels + seq(128, j requires 0 <= j < 128 =>
      ReconstructLabel(labels[256 * i + 2 * j], labels[256 * i + 2 * j + 1]))
  }

  lemma PlaintextLabel(p: Primitives, gr: GarbleResult, x: seq<bv8>, random: seq<bv8>, shareRandom: Block, j: nat)
    requires |gr.wire0| >= 256 && |random| == 128 && j < 128
    ensures var sp, c := MakeShareLabels(gr.wire0[128 + j], gr.delta, shareRandom), ShareChoices(p, x, random);
            ReconstructLabel(if c[2 * j] then Xor(sp.s00, gr.delta) else sp.s00,
                             if c[2 * j + 1] then Xor(sp.s10, gr.delta) else sp.s10)
            == LabelForBit(gr.wire0[128 + j], gr.delta, BlockToBits(H1(p, x))[j] & 1)
  {
    hide Xor, MakeShareLabels, Shares, BytesToBits;
    var bits, c := BlockToBits(H1(p, x)), ShareChoices(p, x, random);
    var sp := MakeShareLabels(gr.wire0[128 + j], gr.delta, shareRandom);
    SharesAt(bits, random, j);
    ShareBits(random[j], bits[j]);
    SharesReconstruct(gr.wire0[128 + j], gr.delta, shareRandom, c[2 * j], c[2 * j + 1]);
    XorZero(sp.s00);
    XorZero(sp.s10);
    XorZero(gr.wire0[128 + j]);
  }

  /** The client's two labels for plaintext bit j are the share labels its choices select. */
  ghost predicate PairChosen(gr: GarbleResult, shareRandom: Block, c0: bool, c1: bool, l0: Block, l1: Block, j: nat)
    requires |gr.wire0| >= 256 && j < 128
  {
    var sp := MakeShareLabels(gr.wire0[128 + j], gr.delta, shareRandom);
    && l0 == (if c0 then Xor(sp.s00, gr.delta) else sp.s00)
    && l1 == (if c1 then Xor(sp.s10, gr.delta) else sp.s10)
  }

  ghost predicate PairsChosen(gr: GarbleResult, shareRandom: seq<Block>, c: seq<bool>, labels: seq<Block>, i: nat)
    requires |gr.wire0| >= 256 && |shareRandom| == 128 && |c| == 256 && 256 * i + 256 <= |labels|
  {
    forall j :: 0 <= j < 128 ==>
      PairChosen(gr, shareRandom[j], c[2 * j], c[2 * j + 1], labels[256 * i + 2 * j], labels[256 * i + 2 * j + 1], j)
  }

  /** The labels the client chose for one circuit, recombined, are the active labels of its input. */
  lemma LabelsAreActive(p: Primitives, gr: GarbleResult, key: Block, x: seq<bv8>, random: seq<bv8>,
                        shareRandom: seq<Block>, keyLabels: seq<Block>, labels: seq<Block>, i: nat)
    requires |gr.wire0| >= 256 && |random| == |shareRandom| == |keyLabels| == 128 && 256 * i + 256 <= |labels|
    requires forall j :: 0 <= j < 128 ==> keyLabels[j] == LabelForBit(gr.wire0[j], gr.delta, BlockToBits(key)[j])
    requires PairsChosen(gr, shareRandom, ShareChoices(p, x, random), labels, i)
    ensures ActiveLabels(gr, BlockToBits(key) + BlockToBits(H1(p, x)), InputLabelsFor(keyLabels, labels, i))
  {
    var bits, l := BlockToBits(key) + BlockToBits(H1(p, x)), InputLabelsFor(keyLabels, labels, i);
    forall k | 0 <= k < 256 ensures l[k] == LabelForBit(gr.wire0[k], gr.delta, bits[k] & 1) {
      if k < 128 {
        BytesGiveBits(key, k);
        KeepBit(bits[k]);
      } else {
        SharedLabel(p, gr, x, random, shareRandom, labels, i, k - 128);
      }
    }
  }

  lemma SharedLabel(p: Primitives, gr: GarbleResult, x: seq<bv8>, random: seq<bv8>, shareRandom: seq<Block>,
                    labels: seq<Block>, i: nat, j: nat)
    requires |gr.wire0| >= 256 && |random| == |shareRandom| == 128 && 256 * i + 256 <= |labels| && j < 128
    requires PairsChosen(gr, shareRandom, ShareChoices(p, x, random), labels, i)
    ensures ReconstructLabel(labels[256 * i + 2 * j], labels[256 * i + 2 * j + 1])
            == LabelForBit(gr.wire0[128 + j], gr.delta, BlockToBits(H1(p, x))[j] & 1)
  {
    var c := ShareChoices(p, x, random);
    assert PairChosen(gr, shareRandom[j], c[2 * j], c[2 * j + 1], labels[256 * i + 2 * j], labels[256 * i + 2 * j + 1],
                      j);
    PlaintextLabel(p, gr, x, random, shareRandom[j], j);
  }

  /** What the client holds after the transfer: of every pair, the label its choice bit names. */
  ghost predicate HasChosen(offers: seq<(Block, Block)>, choices: seq<bool>, labels: seq<Block>)
    requires |offers| == |choices| == |labels|
  {
    forall k :: 0 <= k < |labels| ==> labels[k] == if choices[k] then offers[k].1 else offers[k].0
  }

  lemma OneCircuitChosen(b: Batch, choices: seq<bool>, labels: seq<Block>, i: nat, c: seq<bool>)
    requires b.Valid() && i < b.M() && |choices| == |labels| == 256 * b.M() && |c| == 256
    requires HasChosen(b.Offers(), choices, labels)
    requires forall k :: 0 <= k < 256 ==> c[k] == choices[256 * i + k]
    ensures PairsChosen(b.gcs[i], b.shareRandom[i], c, labels, i)
  {
    forall j | 0 <= j < 128
      ensures PairChosen(b.gcs[i], b.shareRandom[i][j], c[2 * j], c[2 * j + 1],
                         labels[256 * i + 2 * j], labels[256 * i + 2 * j + 1], j)
    {
      b.OfferPair(i, j);
      assert c[2 * j] == choices[256 * i + 2 * j] && c[2 * j + 1] == choices[256 * i + (2 * j + 1)];
    }
  }

  lemma BatchLabelsActive(b: Batch, xs: seq<seq<bv8>>, random: seq<seq<bv8>>, labels: seq<Block>, i: nat)
    requires b.Valid() && |xs| == |random| == b.M() && i < b.M() && |labels| == 256 * b.M()
    requires forall i :: 0 <= i < |random| ==> |random[i]| == 128
    requires HasChosen(b.Offers(), Choices(b.p, xs, random, |xs|), labels)
    ensures ActiveLabels(b.gcs[i], BlockToBits(b.oprfKey) + BlockToBits(H1(b.p, xs[i])),
                         InputLabelsFor(b.KeyLabels(i), labels, i))
  {
    var c := ShareChoices(b.p, xs[i], random[i]);
    forall k | 0 <= k < 256 ensures c[k] == Choices(b.p, xs, random, |xs|)[256 * i + k] {
      ChoicesAt(b.p, xs, random, |xs|, i, k);
    }
    OneCircuitChosen(b, Choices(b.p, xs, random, |xs|), labels, i, c);
    LabelsAreActive(b.p, b.gcs[i], b.oprfKey, xs[i], random[i], b.shareRandom[i], b.KeyLabels(i), labels, i);
  }

  lemma KeepBit(b: bv8)
    requires b == 0 || b == 1
    ensures b & 1 == b
  {
  }

  // ----- The session -----

  /** What the circuit makes of the key and H1(x), evaluated in the clear, hashed with x. */
  ghost function Reference(s: Server, x: seq<bv8>): Hash
    requires s.Valid()
  {
    H2(s.p, x, BitsToBlock(PlainOutputs(s.circ, BlockToBits(s.oprfKey) + BlockToBits(H1(s.p, x)))))
  }

  ghost predicate ComputesAes(s: Server)
    requires s.Valid()
  {
    forall k, x :: PlainOutputs(s.circ, BlockToBits(k) + BlockToBits(x)) == BlockToBits(s.p.aes(k, x))
  }

  /** One circuit on the client: read the tables, evaluate, decode, hash. */
  method EvaluateOne(p: Primitives, circ: Circuit, tm: TablesMsg, inLabels: seq<Block>, x: seq<bv8>) returns (y: Hash)
    requires circ.WellFormed() && circ.NInputs() == |inLabels| && |circ.outputs| == |tm.outDecode| == 128
    requires AndCount(circ.gates) <= |tm.tables|
    ensures y == H2(p, x, BitsToBlock(Decoded(tm.outDecode,
                                              EvalOutputs(circ, FixedKey(p, tm.aesKey), tm.tables, inLabels))))
  {
    var out := EvalCircuitLabels(circ, FixedKey(p, tm.aesKey), tm.tables, inLabels);
    var bits := DecodeOutputs(tm.outDecode, out.value);
    y := H2(p, x, BitsToBlock(bits));
  }

  lemma {:induction false} GateCountBound(gates: seq<Gate>)
    ensures AndCount(gates) <= |gates|
  {
    if gates != [] {
      GateCountBound(gates[..|gates| - 1]);
    }
  }

  lemma TablesArrive(s: Server, i: nat)
    requires s.Valid() && i < |s.random|
    ensures var m := s.Garble().Tables(i);
            && |Serialized(m)| < U64_LIMIT
            && Deserialized(Serialized(m)) == Some(m)
            && |m.tables| == AndCount(s.circ.gates)
  {
    var m := s.Garble().Tables(i);
    hide Deserialized;
    var wire0 := InputLabels(s.circ, MakeDelta(s.random[i].deltaSeed), s.random[i].inputs);
    TablesMatchAnds(FixedKey(s.p, s.mmoKey), MakeDelta(s.random[i].deltaSeed), s.circ.gates, wire0);
    GateCountBound(s.circ.gates);
    SerializedLength(m);
    RoundTrip(m);
  }

  lemma SerializedLength(m: TablesMsg)
    ensures |Serialized(m)| == 120 + 32 * |m.tables| + 16 * |m.keyWire0| + |m.outDecode|
  {
  }

  /** The client's evaluation of circuit i, on the labels it chose, yields the plain result. */
  lemma EvaluationIsPlain(s: Server, b: Batch, xs: seq<seq<bv8>>, random: seq<seq<bv8>>, labels: seq<Block>, i: nat)
    requires s.Valid() && b == s.Garble() && |xs| == |random| == b.M() && i < |xs| && |labels| == 256 * b.M()
    requires forall i :: 0 <= i < |random| ==> |random[i]| == 128
    requires HasChosen(b.Offers(), Choices(b.p, xs, random, |xs|), labels)
    ensures var gr := b.gcs[i];
            && AndCount(s.circ.gates) == |gr.tables|
            && Decoded(gr.outDecode, EvalOutputs(s.circ, FixedKey(s.p, s.mmoKey), gr.tables,
                                                 InputLabelsFor(b.KeyLabels(i), labels, i)))
               == PlainOutputs(s.circ, BlockToBits(s.oprfKey) + BlockToBits(H1(s.p, xs[i])))
  {
    BatchLabelsActive(b, xs, random, labels, i);
    GarblingIsCorrect(s.circ, FixedKey(s.p, s.mmoKey), MakeDelta(s.random[i].deltaSeed), s.random[i].inputs,
                      BlockToBits(s.oprfKey) + BlockToBits(H1(s.p, xs[i])), InputLabelsFor(b.KeyLabels(i), labels, i));
  }

  datatype ClientResult = MMismatch | Finished(ys: seq<Hash>, plainMatch: nat, ok: bool)

  ghost function Matches(ys: seq<Hash>, refs: seq<Hash>): nat
    requires |ys| == |refs|
  {
    if ys == [] then 0 else
      Matches(ys[..|ys| - 1], refs[..|ys| - 1]) + if ys[|ys| - 1] == refs[|ys| - 1] then 1 else 0
  }

  lemma {:induction false} AllMatch(ys: seq<Hash>, refs: seq<Hash>)
    requires |ys| == |refs|
    ensures Matches(ys, refs) <= |ys|
    ensures Matches(ys, refs) == |ys| <==> ys == refs
  {
    if ys != [] {
      var n := |ys| - 1;
      AllMatch(ys[..n], refs[..n]);
      assert ys == ys[..n] + [ys[n]] && refs == refs[..n] + [refs[n]];
    }
  }

  ghost function Expected(s: Server, xs: seq<seq<bv8>>): (r: seq<Hash>)
    requires s.Valid()
    ensures |r| == |xs|
  {
    seq(|xs|, i requires 0 <= i < |xs| => Reference(s, xs[i]))
  }

  function Wanted(p: Primitives, k: Block, xs: seq<seq<bv8>>): (r: seq<Hash>)
    ensures |r| == |xs|
  {
    seq(|xs|, i requires 0 <= i < |xs| => Fk(p, k, xs[i]))
  }

  // ----- The client's run -----

  lemma {:induction false} GcHashAt(b: Batch, n: nat, i: nat)
    requires b.Valid() && i < n <= b.M()
    ensures |b.GcHashes(n)| == 32 * n && b.GcHashes(n)[32 * i..32 * i + 32] == GcHash(b.p, b.gcs[i].tables)
  {
    var last: seq<bv8> := GcHash(b.p, b.gcs[n - 1].tables);
    if n > 1 {
      GcHashAt(b, n - 1, if i < n - 1 then i else 0);
      SliceOfSum(b.GcHashes(n - 1), last, i);
    } else {
      assert last[..32] == last;
    }
  }

  lemma SliceOfSum(a: seq<bv8>, last: seq<bv8>, i: nat)
    requires |last| == 32 && |a| % 32 == 0 && 32 * i <= |a|
    ensures 32 * i + 32 <= |a| ==> (a + last)[32 * i..32 * i + 32] == a[32 * i..32 * i + 32]
    ensures 32 * i == |a| ==> (a + last)[32 * i..32 * i + 32] == last
  {
  }

  /** bind_ok: the hash found in the proof after its public inputs and a 32-byte binding hash is that of circuit 0,
      both as announced and as sent. */
  function Binds(proof: seq<bv8>, gcHash: Hash, announced: Hash): bool {
    |proof| > 16 &&
    var off := (8 + Value(proof[..8]) + 32) % U64_LIMIT;
    && (off + 32) % U64_LIMIT <= |proof|
    && off + 32 <= |proof|
    && proof[off..off + 32] == gcHash == announced
  }

  /** A proof in the prover's layout that carries hash h: the length of its public inputs, these, a 32-byte binding
      hash,
      then h, and the rest. */
  ghost predicate ProofCarries(proof: seq<bv8>, h: Hash) {
    exists pub: seq<bv8>, binding: Hash, rest: seq<bv8> :: InLayout(proof, pub, binding, h, rest)
  }

  ghost predicate InLayout(proof: seq<bv8>, pub: seq<bv8>, binding: Hash, h: Hash, rest: seq<bv8>) {
    |proof| < U64_LIMIT && proof == LittleEndian(|pub|, 8) + pub + binding + h + rest
  }

  lemma FourthPart(a: seq<bv8>, b: seq<bv8>, c: seq<bv8>, d: seq<bv8>, e: seq<bv8>)
    ensures (a + b + c + d + e)[..|a|] == a
    ensures var off := |a| + |b| + |c|; (a + b + c + d + e)[off..off + |d|] == d
  {
  }

  lemma BindsInLayout(proof: seq<bv8>, pub: seq<bv8>, binding: Hash, h: Hash, rest: seq<bv8>, gcHash: Hash,
                      announced: Hash)
    requires InLayout(proof, pub, binding, h, rest)
    ensures Binds(proof, gcHash, announced) <==> h == gcHash == announced
  {
    hide LittleEndian, Value;
    U64RoundTrip(|pub|);
    FourthPart(LittleEndian(|pub|, 8), pub, binding, h, rest);
  }

  /** A proof in that layout binds exactly if it carries the announced hash of the tables received; no proof of 16 bytes
      or fewer binds. */
  lemma BindsCarried(proof: seq<bv8>, gcHash: Hash, announced: Hash)
    ensures forall h: Hash :: ProofCarries(proof, h) ==> (Binds(proof, gcHash, announced) <==> h == gcHash == announced)
    ensures |proof| <= 16 ==> !Binds(proof, gcHash, announced)
  {
    forall h: Hash | ProofCarries(proof, h) ensures Binds(proof, gcHash, announced) <==> h == gcHash == announced {
      hide InLayout, Binds;
      var pub, binding, rest :| InLayout(proof, pub, binding, h, rest);
      BindsInLayout(proof, pub, binding, h, rest, gcHash, announced);
    }
  }

  /** The blob can be read and evaluated. The turn gives the hash y of the result on the client's labels, or nothing if
      the hash in the blob is not the announced one. */
  ghost predicate TurnGives(p: Primitives, circ: Circuit, blob: seq<bv8>, announced: Hash, keyLabels: seq<Block>,
                            labels: seq<Block>, i: nat, x: seq<bv8>, y: Option<Hash>)
  {
    && circ.WellFormed() && circ.NInputs() == 256 && |circ.outputs| == 128
    && |keyLabels| == 128 && 256 * i + 256 <= |labels|
    && Deserialized(blob).Some?
    && var m := Deserialized(blob).value;
    && |m.outDecode| == 128 && AndCount(circ.gates) <= |m.tables|
    && y == if m.gcHash != announced then None else
              Some(H2(p, x, BitsToBlock(Decoded(m.outDecode, EvalOutputs(circ, FixedKey(p, m.aesKey), m.tables,
                                                                         InputLabelsFor(keyLabels, labels, i))))))
  }

  lemma HasAnnounced(p: Primitives, circ: Circuit, blob: seq<bv8>, announced: Hash, keyLabels: seq<Block>,
                     labels: seq<Block>, i: nat, x: seq<bv8>, y: Option<Hash>)
    requires TurnGives(p, circ, blob, announced, keyLabels, labels, i, x, y) && y.Some?
    ensures Deserialized(blob).Some? && Deserialized(blob).value.gcHash == announced
  {
  }

  /** One turn of the client's loop; None when the hash of the tables is not the announced one. */
  method ClientCircuit(p: Primitives, circ: Circuit, blob: seq<bv8>, announced: Hash, keyLabels: seq<Block>,
                       labels: seq<Block>, i: nat, x: seq<bv8>, ghost result: Option<Hash>) returns (y: Option<Hash>)
    requires TurnGives(p, circ, blob, announced, keyLabels, labels, i, x, result)
    ensures y == result
  {
    var tm := DeserializeTables(blob);
    if tm.gcHash != announced {
      return None;
    }
    var hash := EvaluateOne(p, circ, tm, InputLabelsFor(keyLabels, labels, i), x);
    y := Some(hash);
  }

  /** On what an honest server sent, every turn of the client's loop gives the reference result. */
  lemma TurnIsReference(s: Server, b: Batch, xs: seq<seq<bv8>>, random: seq<seq<bv8>>, labels: seq<Block>, i: nat)
    requires s.Valid() && b == s.Garble() && |xs| == |random| == b.M() && i < |xs| && |labels| == 256 * b.M()
    requires forall i :: 0 <= i < |random| ==> |random[i]| == 128
    requires HasChosen(b.Offers(), Choices(b.p, xs, random, |xs|), labels)
    ensures TurnGives(s.p, s.circ, Serialized(b.Tables(i)), GcHash(s.p, b.gcs[i].tables), b.KeyLabels(i), labels, i,
                      xs[i], Some(Reference(s, xs[i])))
  {
    hide Serialized, Deserialized, GcHash, HasChosen, Choices, EvalOutputs, PlainOutputs;
    TablesArrive(s, i);
    EvaluationIsPlain(s, b, xs, random, labels, i);
  }

  ghost predicate Tallied(ys: seq<Hash>, plainMatch: nat, plaintextOk: bool, expected: seq<Hash>, wanted: seq<Hash>) {
    && ys == expected && |expected| == |wanted|
    && plainMatch == Matches(ys, wanted)
    && (plaintextOk <==> ys == wanted)
  }

  /** The number of turns before the first that gives nothing. */
  ghost function Leading(results: seq<Option<Hash>>): (n: nat)
    ensures n <= |results| && (forall i :: 0 <= i < n ==> results[i].Some?) && (n < |results| ==> results[n].None?)
  {
    if results == [] || results[0].None? then 0 else 1 + Leading(results[1..])
  }

  ghost function Given(results: seq<Option<Hash>>, n: nat): (ys: seq<Hash>)
    requires n <= Leading(results)
    ensures |ys| == n
  {
    seq(n, i requires 0 <= i < n => results[i].value)
  }

  /** The turns up to the first that gives nothing are tallied; after that the results are no longer right. */
  ghost predicate Reported(ys: seq<Hash>, plainMatch: nat, plaintextOk: bool, results: seq<Option<Hash>>,
                           wanted: seq<Hash>)
    requires |results| == |wanted|
  {
    var n := Leading(results);
    && ys == Given(results, n) && plainMatch == Matches(ys, wanted[..n])
    && (plaintextOk <==> n == |results| && ys == wanted)
  }

  lemma TalliedSnoc(ys: seq<Hash>, plainMatch: nat, plaintextOk: bool, expected: seq<Hash>, wanted: seq<Hash>, i: nat)
    requires |expected| == |wanted| && i < |expected| &&
      Tallied(ys, plainMatch, plaintextOk, expected[..i], wanted[..i])
    ensures Tallied(ys + [expected[i]], if expected[i] == wanted[i] then plainMatch + 1 else plainMatch,
                    plaintextOk && expected[i] == wanted[i], expected[..i + 1], wanted[..i + 1])
  {
    var ys', wanted' := ys + [expected[i]], wanted[..i + 1];
    assert ys'[..i] == ys && wanted'[..i] == wanted[..i];
    assert ys' == expected[..i + 1];
  }

  /** The first n turns have given results, which are tallied. */
  ghost predicate TalliedTo(results: seq<Option<Hash>>, wanted: seq<Hash>, n: nat, ys: seq<Hash>, plainMatch: nat,
                            plaintextOk: bool)
    requires |results| == |wanted|
  {
    n <= Leading(results) && Tallied(ys, plainMatch, plaintextOk, Given(results, n), wanted[..n])
  }

  lemma TallyOne(results: seq<Option<Hash>>, wanted: seq<Hash>, i: nat, ys: seq<Hash>, plainMatch: nat,
                 plaintextOk: bool, y: Hash)
    requires |results| == |wanted| && i < |results| && TalliedTo(results, wanted, i, ys, plainMatch, plaintextOk)
    requires results[i] == Some(y)
    ensures TalliedTo(results, wanted, i + 1, ys + [y], if wanted[i] == y then plainMatch + 1 else plainMatch,
                      plaintextOk && wanted[i] == y)
  {
    var n := Leading(results);
    var given, due := Given(results, n), wanted[..n];
    assert Given(results, i) == given[..i] && Given(results, i + 1) == given[..i + 1];
    assert wanted[..i] == due[..i] && wanted[..i + 1] == due[..i + 1];
    TalliedSnoc(ys, plainMatch, plaintextOk, given, due, i);
  }

  lemma TallyEnds(results: seq<Option<Hash>>, wanted: seq<Hash>, n: nat, ys: seq<Hash>, plainMatch: nat,
                  plaintextOk: bool)
    requires |results| == |wanted| && TalliedTo(results, wanted, n, ys, plainMatch, plaintextOk)
    requires n < |results| ==> results[n].None?
    ensures Reported(ys, plainMatch, plaintextOk && n == |results|, results, wanted)
  {
    assert n == Leading(results) && wanted[..|wanted|] == wanted;
  }

  /** The client's loop over all circuits: each result is compared with F_k of its input. It stops at the first tables
      that do not have the announced hash. */
  method EvaluateAll(p: Primitives, circ: Circuit, tables: seq<seq<bv8>>, announced: seq<Hash>,
                     keyLabels: seq<seq<Block>>, labels: seq<Block>, xs: seq<seq<bv8>>, key: Block,
                     ghost results: seq<Option<Hash>>)
    returns (ys: seq<Hash>, plainMatch: nat, plaintextOk: bool)
    requires |xs| == |tables| == |announced| == |keyLabels| == |results|
    requires forall i :: 0 <= i < |xs| ==>
                           TurnGives(p, circ, tables[i], announced[i], keyLabels[i], labels, i, xs[i], results[i])
    ensures Reported(ys, plainMatch, plaintextOk, results, Wanted(p, key, xs))
  {
    ys, plainMatch, plaintextOk := [], 0, true;
    ghost var wanted := Wanted(p, key, xs);
    assert TalliedTo(results, wanted, 0, ys, plainMatch, plaintextOk);
    assert forall i :: 0 <= i < |xs| ==> wanted[i] == Fk(p, key, xs[i]);
    hide TurnGives, TalliedTo, Wanted, Fk, Reported;
    for i := 0 to |xs|
      invariant TalliedTo(results, wanted, i, ys, plainMatch, plaintextOk)
    {
      var y := ClientCircuit(p, circ, tables[i], announced[i], keyLabels[i], labels, i, xs[i], results[i]);
      if y == None {
        TallyEnds(results, wanted, i, ys, plainMatch, plaintextOk);
        plaintextOk := false;
        return;
      }
      TallyOne(results, wanted, i, ys, plainMatch, plaintextOk, y.value);
      ys := ys + [y.value];
      if Fk(p, key, xs[i]) == y.value {
        plainMatch := plainMatch + 1;
      } else {
        plaintextOk := false;
      }
    }
    TallyEnds(results, wanted, |xs|, ys, plainMatch, plaintextOk);
  }

  /** The server's key labels, circuit by circuit. */
  method ParseKeys(blobs: seq<seq<bv8>>, ghost b: Batch) returns (keyLabels: seq<seq<Block>>)
    requires b.Valid() && blobs == KeyBlobs(b)
    ensures |keyLabels| == b.M() && forall i :: 0 <= i < b.M() ==> keyLabels[i] == b.KeyLabels(i)
  {
    keyLabels := [];
    for i := 0 to |blobs|
      invariant |keyLabels| == i && forall k :: 0 <= k < i ==> keyLabels[k] == b.KeyLabels(k)
    {
      var labels := ParseKeyBlob(blobs[i], b.KeyLabels(i));
      keyLabels := keyLabels + [labels];
    }
  }

  method ParseKeyBlob(blob: seq<bv8>, ghost sent: seq<Block>) returns (labels: seq<Block>)
    requires blob == Flat(sent) && |sent| == 128
    ensures labels == sent
  {
    TakeFlat(sent, []);
    assert blob + [] == blob && blob[0..] == blob;
    var taken, _ := TakeBlocksFrom(blob, 0, 128);
    labels := taken;
  }

  /** The announced hashes follow the batch size. */
  method ParseMeta(meta: seq<bv8>, m: nat) returns (announced: seq<Hash>)
    requires |meta| == 8 + 32 * m
    ensures m == |announced| && forall i :: 0 <= i < m ==> announced[i] == meta[8 + 32 * i..8 + 32 * i + 32]
  {
    var off := 8;
    announced := [];
    for i := 0 to m
      invariant off == 8 + 32 * i && |announced| == i
      invariant forall k :: 0 <= k < i ==> announced[k] == meta[8 + 32 * k..8 + 32 * k + 32]
    {
      announced := announced + [meta[off..off + 32]];
      off := off + 32;
    }
  }

  lemma MetaHashes(b: Batch, meta: seq<bv8>)
    requires b.Valid() && meta == LittleEndian(b.M(), 8) + b.GcHashes(b.M()) && b.M() > 0
    ensures |meta| == 8 + 32 * b.M()
    ensures forall i :: 0 <= i < b.M() ==> meta[8 + 32 * i..8 + 32 * i + 32] == GcHash(b.p, b.gcs[i].tables)
  {
    var hashes := b.GcHashes(b.M());
    GcHashAt(b, b.M(), 0);
    forall i | 0 <= i < b.M() ensures meta[8 + 32 * i..8 + 32 * i + 32] == GcHash(b.p, b.gcs[i].tables) {
      GcHashAt(b, b.M(), i);
      HashAfterSize(meta, b.M(), hashes, i);
    }
  }

  lemma HashAfterSize(meta: seq<bv8>, m: nat, hashes: seq<bv8>, i: nat)
    requires meta == LittleEndian(m, 8) + hashes && |hashes| == 32 * m && i < m
    ensures 32 * i + 32 <= |hashes| && |meta| == 8 + |hashes|
    ensures meta[8 + 32 * i..8 + 32 * i + 32] == hashes[32 * i..32 * i + 32]
  {
  }

  lemma SentFits(s: Server, pads: seq<(Block, Block)>, online: bool, cm: seq<bv8>, proof: seq<bv8>)
    requires s.Valid() && |pads| == 256 * s.Garble().M() && |cm| < U64_LIMIT && |proof| < U64_LIMIT
    ensures Sendable(Session(online, cm, Sent(s.Garble(), pads), proof))
  {
    var b := s.Garble();
    var r := Sent(b, pads);
    if b.M() > 0 { GcHashAt(b, b.M(), 0); }
    forall i | 0 <= i < b.M() ensures |r.tables[i]| < U64_LIMIT && |r.keys[i]| < U64_LIMIT {
      TablesArrive(s, i);
    }
    SessionFits(online, cm, r, proof);
  }

  lemma SessionFits(online: bool, cm: seq<bv8>, r: Messages, proof: seq<bv8>)
    requires |cm| < U64_LIMIT && |r.meta| < U64_LIMIT && |r.masks| < U64_LIMIT && |proof| < U64_LIMIT &&
      |r.key| < U64_LIMIT
    requires Sendable(r.tables) && Sendable(r.keys)
    ensures Sendable(Session(online, cm, r, proof))
  {
  }

  /** What the client holds after unmasking is what it chose. */
  lemma UnmaskedIsChosen(pads: seq<(Block, Block)>, offers: seq<(Block, Block)>, choices: seq<bool>, blob: seq<bv8>,
                         labels: seq<Block>)
    requires |pads| == |offers| == |choices| == |labels| && blob == Flat(Masked(pads, offers))
    requires forall k :: 0 <= k < |choices| ==>
      labels[k] == Xor(Transferred(pads, choices)[k],
                       TakeBlocks(blob, 2 * |choices|)[if choices[k] then 2 * k + 1 else 2 * k])
    ensures HasChosen(offers, choices, labels)
  {
    TakeFlat(Masked(pads, offers), []);
    assert blob + [] == blob;
    forall k | 0 <= k < |labels| ensures labels[k] == if choices[k] then offers[k].1 else offers[k].0 {
      UnmaskedAreOffers(pads, offers, choices, k);
    }
  }

  /** The client after the transfer, whatever readable tables and labels it has got; the result of verifying the proof
      is the parameter starkOk. */
  method ClientFinish(p: Primitives, circ: Circuit, starkOk: bool, proof: seq<bv8>, tables: seq<seq<bv8>>,
                      announced: seq<Hash>, keyLabels: seq<seq<Block>>, labels: seq<Block>, xs: seq<seq<bv8>>,
                      key: Block, ghost results: seq<Option<Hash>>)
    returns (r: ClientResult)
    requires 0 < |xs| == |tables| == |announced| == |keyLabels| == |results|
    requires forall i :: 0 <= i < |xs| ==>
                           TurnGives(p, circ, tables[i], announced[i], keyLabels[i], labels, i, xs[i], results[i])
    ensures Deserialized(tables[0]).Some?
    ensures r == Report(starkOk && Binds(proof, Deserialized(tables[0]).value.gcHash, announced[0]), results,
                        Wanted(p, key, xs))
  {
    var bindOk := false;
    assert TurnGives(p, circ, tables[0], announced[0], keyLabels[0], labels, 0, xs[0], results[0]);
    if starkOk && |proof| > 16 {
      var t0 := DeserializeTables(tables[0]);
      bindOk := Binds(proof, t0.gcHash, announced[0]);
    }
    var ys: seq<Hash>, plainMatch: nat, plaintextOk := [], 0, true;
    if starkOk && bindOk {
      ys, plainMatch, plaintextOk := EvaluateAll(p, circ, tables, announced, keyLabels, labels, xs, key, results);
      AllMatch(ys, Wanted(p, key, xs)[..Leading(results)]);
    }
    r := Finished(ys, plainMatch, starkOk && bindOk && plaintextOk && plainMatch == |xs|);
  }

  /** The client's report: nothing is evaluated unless the proof is accepted, nothing after the first turn that gives
      nothing, and the run passes just when every turn gives the wanted result. */
  ghost function Report(accepted: bool, results: seq<Option<Hash>>, wanted: seq<Hash>): ClientResult
    requires |results| == |wanted|
  {
    if !accepted then Finished([], 0, false) else
      var n := Leading(results);
      Finished(Given(results, n), Matches(Given(results, n), wanted[..n]), n == |results| &&
               Given(results, n) == wanted)
  }

  /** The run passes exactly if the proof is accepted and every turn gives what it should. */
  lemma PassesExactly(accepted: bool, results: seq<Option<Hash>>, wanted: seq<Hash>)
    requires |results| == |wanted|
    ensures Report(accepted, results, wanted).ok <==>
      accepted && forall i :: 0 <= i < |results| ==> results[i] == Some(wanted[i])
  {
    var n := Leading(results);
    if accepted && n == |results| {
      var given := Given(results, n);
      assert forall i :: 0 <= i < n ==> results[i] == Some(given[i]);
    }
  }

  /** The report when every turn gives a result. */
  ghost function Outcome(accepted: bool, expected: seq<Hash>, wanted: seq<Hash>): ClientResult
    requires |expected| == |wanted|
  {
    if accepted then Finished(expected, Matches(expected, wanted), expected == wanted) else Finished([], 0, false)
  }

  ghost function AllSome(ys: seq<Hash>): (results: seq<Option<Hash>>)
    ensures |results| == |ys|
  {
    seq(|ys|, i requires 0 <= i < |ys| => Some(ys[i]))
  }

  lemma ReportOfAll(accepted: bool, expected: seq<Hash>, wanted: seq<Hash>)
    requires |expected| == |wanted|
    ensures Report(accepted, AllSome(expected), wanted) == Outcome(accepted, expected, wanted)
  {
    var results := AllSome(expected);
    var n := Leading(results);
    assert n == |results|;
    assert Given(results, n) == expected && wanted[..n] == wanted;
  }

  /** The end of the client's run when all tables have the announced hashes. */
  method FinishWithAll(p: Primitives, circ: Circuit, starkOk: bool, proof: seq<bv8>, tables: seq<seq<bv8>>,
                       announced: seq<Hash>, keyLabels: seq<seq<Block>>, labels: seq<Block>, xs: seq<seq<bv8>>,
                       key: Block, ghost expected: seq<Hash>)
    returns (r: ClientResult)
    requires 0 < |xs| == |tables| == |announced| == |keyLabels| == |expected|
    requires forall i :: 0 <= i < |xs| ==>
                           TurnGives(p, circ, tables[i], announced[i], keyLabels[i], labels, i, xs[i],
                                     Some(expected[i]))
    ensures r == Outcome(starkOk && Binds(proof, announced[0], announced[0]), expected, Wanted(p, key, xs))
  {
    hide TurnGives, Outcome, Binds, Report, Wanted;
    HasAnnounced(p, circ, tables[0], announced[0], keyLabels[0], labels, 0, xs[0], Some(expected[0]));
    r := ClientFinish(p, circ, starkOk, proof, tables, announced, keyLabels, labels, xs, key, AllSome(expected));
    ReportOfAll(starkOk && Binds(proof, announced[0], announced[0]), expected, Wanted(p, key, xs));
  }

  /** Everything the client needs after the transfer, as the lemma chain delivers it. */
  lemma TurnsAreReference(s: Server, b: Batch, xs: seq<seq<bv8>>, random: seq<seq<bv8>>, labels: seq<Block>,
                          tables: seq<seq<bv8>>, announced: seq<Hash>, keyLabels: seq<seq<Block>>)
    requires s.Valid() && b == s.Garble() && |xs| == |random| == b.M() && |labels| == 256 * b.M()
    requires forall i :: 0 <= i < |random| ==> |random[i]| == 128
    requires HasChosen(b.Offers(), Choices(b.p, xs, random, |xs|), labels)
    requires tables == TableBlobs(b) && |announced| == |keyLabels| == b.M()
    requires forall i :: 0 <= i < b.M() ==> announced[i] == GcHash(b.p, b.gcs[i].tables)
    requires forall i :: 0 <= i < b.M() ==> keyLabels[i] == b.KeyLabels(i)
    ensures forall i :: 0 <= i < |xs| ==>
      TurnGives(s.p, s.circ, tables[i], announced[i], keyLabels[i], labels, i, xs[i], Some(Expected(s, xs)[i]))
  {
    hide TurnGives, HasChosen, Choices, GcHash, Serialized;
    forall i | 0 <= i < |xs|
      ensures TurnGives(s.p, s.circ, tables[i], announced[i], keyLabels[i], labels, i, xs[i], Some(Expected(s, xs)[i]))
    {
      TurnIsReference(s, b, xs, random, labels, i);
    }
  }

  /** The client once the batch sizes agree. */
  method ClientOnline(cfg: Config, p: Primitives, circ: Circuit, xs: seq<seq<bv8>>, random: seq<seq<bv8>>,
                      pads: seq<(Block, Block)>, meta: seq<bv8>, channel: seq<Block>, starkOk: bool, ghost s: Server,
                      ghost b: Batch, ghost proof: seq<bv8>) returns (r: ClientResult)
    requires s.Valid() && b == s.Garble() && p == s.p && circ == s.circ && |pads| == 256 * b.M()
    requires cfg.m == |xs| == |random| == b.M() > 0 && forall i :: 0 <= i < |random| ==> |random[i]| == 128
    requires meta == Sent(b, pads).meta && Sendable(Body(cfg.tablesOnline, Sent(b, pads), proof))
    requires channel == Framing(Body(cfg.tablesOnline, Sent(b, pads), proof))
    ensures var hash := GcHash(p, b.gcs[0].tables);
            r == Outcome(starkOk && Binds(proof, hash, hash), Expected(s, xs), Wanted(p, b.oprfKey, xs))
  {
    MetaHashes(b, meta);
    var announced := ParseMeta(meta, cfg.m);
    var choices := ClientChoose(p, xs, random);
    var otOut := Transferred(pads, choices);
    var tables, masks, keys, proof', key := ReceiveBody(cfg.tablesOnline, cfg.m, channel, Sent(b, pads), proof);
    var labels := ClientUnmask(masks, otOut, choices);
    UnmaskedIsChosen(pads, b.Offers(), choices, masks, labels);
    var keyLabels := ParseKeys(keys, b);
    TurnsAreReference(s, b, xs, random, labels, tables, announced, keyLabels);
    r := FinishWithAll(p, circ, starkOk, proof', tables, announced, keyLabels, labels, xs,
                       if |key| == 16 then key else ZERO, Expected(s, xs));
  }

  /** run_client against an honest server: the oblivious transfer hands it the pads it chose. */
  method RunClient(cfg: Config, p: Primitives, circ: Circuit, xs: seq<seq<bv8>>, random: seq<seq<bv8>>,
                   pads: seq<(Block, Block)>, channel: seq<Block>, starkOk: bool, ghost s: Server, ghost cm: seq<bv8>,
                   ghost proof: seq<bv8>) returns (r: ClientResult)
    requires s.Valid() && p == s.p && circ == s.circ && |pads| == 256 * |s.random|
    requires cfg.m == |xs| == |random| > 0 && forall i :: 0 <= i < |random| ==> |random[i]| == 128
    requires |cm| < U64_LIMIT && |proof| < U64_LIMIT
    requires channel == Framing(Session(cfg.tablesOnline, cm, Sent(s.Garble(), pads), proof))
    ensures cfg.m != |s.random| ==> r == MMismatch
    ensures cfg.m == |s.random| ==>
      var hash := GcHash(p, s.Gc(0).tables);
      r == Outcome(starkOk && Binds(proof, hash, hash), Expected(s, xs), Wanted(p, s.oprfKey, xs))
  {
    hide Framing, Body, LittleEndian, GcHash, Expected, Wanted;
    ghost var b := s.Garble();
    ghost var sent := Sent(b, pads);
    SentFits(s, pads, cfg.tablesOnline, cm, proof);
    SendableParts([cm, sent.meta], Body(cfg.tablesOnline, sent, proof));
    var head, rest := ReceiveMany(channel, 2, [cm, sent.meta], Body(cfg.tablesOnline, sent, proof));
    var meta := head[1];
    U64RoundTrip(b.M());
    assert meta[0..8] == LittleEndian(b.M(), 8);
    var m, _ := TakeU64(meta, 0);
    if m != cfg.m {
      return MMismatch;
    }
    r := ClientOnline(cfg, p, circ, xs, random, pads, meta, rest, starkOk, s, b, proof);
  }

  /** A whole session. With both sides set to the same number of evaluations, an accepted proof and ideal oblivious
      transfer, the client's results are the reference results; the run passes exactly when they all equal F_k. */
  method RunSession(cfg: Config, s: Server, xs: seq<seq<bv8>>, random: seq<seq<bv8>>, pads: seq<(Block, Block)>,
                    cm: seq<bv8>, proof: seq<bv8>, starkOk: bool) returns (r: ClientResult)
    requires s.Valid() && cfg.m == |s.random| && cfg.nOt == 256 * cfg.m == |pads|
    requires |xs| == |random| > 0 && forall i :: 0 <= i < |random| ==> |random[i]| == 128
    requires |cm| < U64_LIMIT && |proof| < U64_LIMIT
    ensures r == MMismatch <==> |xs| != cfg.m
    ensures |xs| == cfg.m ==>
      var hash := GcHash(s.p, s.Gc(0).tables);
      r == Outcome(starkOk && Binds(proof, hash, hash), Expected(s, xs), Wanted(s.p, s.oprfKey, xs))
    ensures |xs| == cfg.m && ComputesAes(s) && starkOk && ProofCarries(proof, GcHash(s.p, s.Gc(0).tables)) ==>
      r == Finished(Wanted(s.p, s.oprfKey, xs), |xs|, true)
    ensures |xs| == cfg.m ==>
      forall h: Hash :: ProofCarries(proof, h) && !(starkOk && h == GcHash(s.p, s.Gc(0).tables)) ==>
        r == Finished([], 0, false)
    ensures |xs| == cfg.m && (|proof| <= 16 || !starkOk) ==> r == Finished([], 0, false)
  {
    hide Outcome, Binds, ProofCarries, Expected, Wanted, ComputesAes, GcHash;
    var channel := RunServer(cfg, s, pads, cm, proof);
    r := RunClient(Config(|xs|, 256 * |xs|, cfg.tablesOnline), s.p, s.circ, xs, random, pads, channel, starkOk, s, cm,
                   proof);
    if |xs| == cfg.m {
      HonestOutcome(s, xs, proof, starkOk);
    }
  }

  /** What the outcome of an honest session is, depending on the proof. */
  lemma HonestOutcome(s: Server, xs: seq<seq<bv8>>, proof: seq<bv8>, starkOk: bool)
    requires s.Valid() && |s.random| > 0
    ensures var hash := GcHash(s.p, s.Gc(0).tables);
            var r := Outcome(starkOk && Binds(proof, hash, hash), Expected(s, xs), Wanted(s.p, s.oprfKey, xs));
            && r.Finished?
            && (ComputesAes(s) && starkOk && ProofCarries(proof, hash) ==>
                  r == Finished(Wanted(s.p, s.oprfKey, xs), |xs|, true))
            && (forall h: Hash :: ProofCarries(proof, h) && !(starkOk && h == hash) ==> r == Finished([], 0, false))
            && (|proof| <= 16 || !starkOk ==> r == Finished([], 0, false))
  {
    hide Binds, ProofCarries, Expected, Wanted, ComputesAes, GcHash;
    BindsCarried(proof, GcHash(s.p, s.Gc(0).tables), GcHash(s.p, s.Gc(0).tables));
    if ComputesAes(s) {
      AesGivesWanted(s, xs);
      AllMatch(Expected(s, xs), Wanted(s.p, s.oprfKey, xs));
    }
  }

  /** If the circuit computes AES, the reference results are F_k of the inputs. */
  lemma AesGivesWanted(s: Server, xs: seq<seq<bv8>>)
    requires s.Valid() && ComputesAes(s)
    ensures Expected(s, xs) == Wanted(s.p, s.oprfKey, xs)
  {
    forall i | 0 <= i < |xs| ensures Reference(s, xs[i]) == Fk(s.p, s.oprfKey, xs[i]) {
      var x := H1(s.p, xs[i]);
      assert PlainOutputs(s.circ, BlockToBits(s.oprfKey) + BlockToBits(x)) == BlockToBits(s.p.aes(s.oprfKey, x));
      BytesRoundTrip(s.p.aes(s.oprfKey, x));
    }
  }
}
