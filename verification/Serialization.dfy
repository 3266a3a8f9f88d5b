/** Byte messages of the protocol: little-endian numbers, blocks, the table blob of one garbled
    circuit, and the framing of blobs into blocks on the channel. */
module Serialization {
  import opened Blocks
  import opened Bytes
  import opened GarbledCircuit

  type Hash = s: seq<bv8> | |s| == 32 witness seq(32, _ => 0)

  const U64_LIMIT: nat := 0x1_0000_0000_0000_0000

  // ----- Numbers -----

  /** The n low bytes of x, lowest first. */
  function LittleEndian(x: nat, n: nat): (b: seq<bv8>)
    ensures |b| == n
  {
    if n == 0 then [] else [ToByte(x % 256)] + LittleEndian(x / 256, n - 1)
  }

  function Value(b: seq<bv8>): nat {
    if b == [] then 0 else ToNat(b[0]) + 256 * Value(b[1..])
  }

  function Power(n: nat): (p: nat)
    ensures p > 0
  {
    if n == 0 then 1 else 256 * Power(n - 1)
  }

  lemma {:induction false} ValueOfLittleEndian(x: nat, n: nat)
    requires x < Power(n)
    ensures Value(LittleEndian(x, n)) == x
  {
    if n > 0 {
      var low, high := x % 256, x / 256;
      assert high < Power(n - 1);
      ValueOfLittleEndian(high, n - 1);
      ByteValue(low);
      var b := LittleEndian(x, n);
      assert b[0] == ToByte(low) && b[1..] == LittleEndian(high, n - 1);
    }
  }

  lemma U64RoundTrip(x: nat)
    requires x < U64_LIMIT
    ensures Value(LittleEndian(x, 8)) == x
  {
    assert Power(8) == 256 * (256 * (256 * (256 * Power(4))));
    assert Power(4) == 256 * (256 * (256 * (256 * Power(0))));
    ValueOfLittleEndian(x, 8);
  }

  /** push_u64 */
  method PushU64(o: seq<bv8>, x: nat) returns (r: seq<bv8>)
    ensures r == o + LittleEndian(x, 8)
  {
    r := o;
    var rest := x;
    for i := 0 to 8
      invariant o + LittleEndian(x, 8) == r + LittleEndian(rest, 8 - i)
    {
      r := r + [ToByte(rest % 256)];
      rest := rest / 256;
    }
  }

  lemma Distribute(p: nat, l: nat, h: nat)
    ensures p * (l + 256 * h) == p * l + (256 * p) * h
  {
  }

  lemma ShiftedByte(word: seq<bv8>, i: nat, place: nat)
    requires i < |word|
    ensures place * Value(word[i..]) == place * ToNat(word[i]) + (256 * place) * Value(word[i + 1..])
  {
    var low, high := ToNat(word[i]), Value(word[i + 1..]);
    assert word[i..][0] == word[i] && word[i..][1..] == word[i + 1..];
    Distribute(place, low, high);
  }

  lemma ValueOfNothing(b: seq<bv8>)
    requires |b| == 0
    ensures Value(b) == 0
  {
  }

  /** take_u64 */
  method TakeU64(b: seq<bv8>, off: nat) returns (x: nat, next: nat)
    requires off + 8 <= |b|
    ensures x == Value(b[off..off + 8]) && next == off + 8
  {
    hide Value, ToNat;
    ghost var word := b[off..off + 8];
    assert word[0..] == word;
    x, next := 0, off;
    var place: nat := 1;
    for i := 0 to 8
      invariant next == off + i
      invariant x + place * Value(word[i..]) == Value(word)
    {
      ShiftedByte(word, i, place);
      x := x + place * ToNat(b[next]);
      place := 256 * place;
      next := next + 1;
    }
    ValueOfNothing(word[8..]);
  }

  // ----- Blocks -----

  function Flat(blocks: seq<Block>): (b: seq<bv8>)
    ensures |b| == 16 * |blocks|
  {
    if blocks == [] then [] else blocks[0] + Flat(blocks[1..])
  }

  lemma {:induction false} FlatAt(blocks: seq<Block>, k: nat)
    requires k < |blocks|
    ensures Flat(blocks)[16 * k..16 * k + 16] == blocks[k]
    decreases |blocks|
  {
    if k > 0 {
      FlatAt(blocks[1..], k - 1);
      assert Flat(blocks)[16 * k..16 * k + 16] == Flat(blocks[1..])[16 * (k - 1)..16 * (k - 1) + 16];
    }
  }

  /** The first n blocks of a byte string. */
  function TakeBlocks(b: seq<bv8>, n: nat): (r: seq<Block>)
    requires 16 * n <= |b|
    ensures |r| == n
    decreases n
  {
    if n == 0 then [] else [b[..16]] + TakeBlocks(b[16..], n - 1)
  }

  lemma {:induction false} TakeFlat(blocks: seq<Block>, rest: seq<bv8>)
    ensures TakeBlocks(Flat(blocks) + rest, |blocks|) == blocks
  {
    if blocks != [] {
      TakeFlat(blocks[1..], rest);
      var b := Flat(blocks) + rest;
      assert b == blocks[0] + (Flat(blocks[1..]) + rest);
      assert b[..16] == blocks[0] && b[16..] == Flat(blocks[1..]) + rest;
    }
  }

  /** push_block in a loop. */
  method PushBlocks(o: seq<bv8>, blocks: seq<Block>) returns (r: seq<bv8>)
    ensures r == o + Flat(blocks)
  {
    r := o;
    for i := 0 to |blocks|
      invariant r + Flat(blocks[i..]) == o + Flat(blocks)
    {
      assert blocks[i..][0] == blocks[i] && blocks[i..][1..] == blocks[i + 1..];
      r := r + blocks[i];
    }
    assert blocks[|blocks|..] == [];
  }

  lemma TakeNext(b: seq<bv8>, off: nat, n: nat)
    requires off + 16 * n <= |b| && n > 0
    ensures TakeBlocks(b[off..], n) == [b[off..off + 16]] + TakeBlocks(b[off + 16..], n - 1)
  {
    assert b[off..][..16] == b[off..off + 16] && b[off..][16..] == b[off + 16..];
  }

  /** take_block in a loop: the offset advances by 16 per block. */
  method TakeBlocksFrom(b: seq<bv8>, off: nat, n: nat) returns (blocks: seq<Block>, next: nat)
    requires off + 16 * n <= |b|
    ensures next == off + 16 * n
    ensures blocks == TakeBlocks(b[off..], n)
  {
    hide TakeBlocks;
    blocks, next := [], off;
    for i := 0 to n
      invariant next == off + 16 * i
      invariant blocks + TakeBlocks(b[next..], n - i) == TakeBlocks(b[off..], n)
    {
      TakeNext(b, next, n - i);
      blocks := blocks + [b[next..next + 16]];
      next := next + 16;
    }
  }

  // ----- The table blob -----

  datatype TablesMsg = TablesMsg(aesKey: Block, delta: Block, tables: seq<AndGateTable>, keyWire0: seq<Block>,
                                 outDecode: seq<bv8>, gcHash: Hash, rRoot: Hash)

  datatype Option<+T> = None | Some(value: T)

  /** The rows of all tables in order. */
  function Rows(tables: seq<AndGateTable>): (b: seq<Block>)
    ensures |b| == 2 * |tables|
    ensures forall i :: 0 <= i < |tables| ==> b[2 * i] == tables[i].T0 && b[2 * i + 1] == tables[i].T1
  {
    if tables == [] then [] else
      Rows(tables[..|tables| - 1]) + [tables[|tables| - 1].T0, tables[|tables| - 1].T1]
  }

  function Tables(rows: seq<Block>): (t: seq<AndGateTable>)
    requires |rows| % 2 == 0
    ensures |t| == |rows| / 2
  {
    seq(|rows| / 2, i requires 0 <= i < |rows| / 2 => AndGateTable(rows[2 * i], rows[2 * i + 1]))
  }

  lemma TablesOfRows(tables: seq<AndGateTable>)
    ensures Tables(Rows(tables)) == tables
  {
  }

  datatype Tail = Tail(outDecode: seq<bv8>, gcHash: Hash, rRoot: Hash)

  function SerializedTail(t: Tail): seq<bv8> {
    LittleEndian(|t.outDecode|, 8) + (t.outDecode + (t.gcHash + t.rRoot))
  }

  function SerializedKeys(keys: seq<Block>, t: Tail): seq<bv8> {
    LittleEndian(|keys|, 8) + (Flat(keys) + SerializedTail(t))
  }

  function SerializedTables(tables: seq<AndGateTable>, keys: seq<Block>, t: Tail): seq<bv8> {
    LittleEndian(|tables|, 8) + (Flat(Rows(tables)) + SerializedKeys(keys, t))
  }

  function Serialized(m: TablesMsg): seq<bv8> {
    m.aesKey + (m.delta + SerializedTables(m.tables, m.keyWire0, Tail(m.outDecode, m.gcHash, m.rRoot)))
  }

  /** A length at the front, if as many units of the given size follow. */
  function TakeLength(b: seq<bv8>, unit: nat): (r: Option<nat>)
    ensures r.Some? ==> 8 + unit * r.value <= |b|
  {
    if |b| < 8 || |b| < 8 + unit * Value(b[..8]) then None else Some(Value(b[..8]))
  }

  function DeserializedTail(b: seq<bv8>): Option<Tail> {
    match TakeLength(b, 1)
    case None => None
    case Some(n) =>
      if |b| < 8 + n + 64 then None else
        Some(Tail(b[8..8 + n], b[8 + n..8 + n + 32], b[8 + n + 32..8 + n + 64]))
  }

  function DeserializedKeys(b: seq<bv8>): Option<(seq<Block>, Tail)> {
    match TakeLength(b, 16)
    case None => None
    case Some(n) =>
      match DeserializedTail(b[8 + 16 * n..])
      case None => None
      case Some(t) => Some((TakeBlocks(b[8..], n), t))
  }

  function TakeTables(b: seq<bv8>, n: nat): (tables: seq<AndGateTable>)
    requires 32 * n <= |b|
    ensures |tables| == n
  {
    Tables(TakeBlocks(b, 2 * n))
  }

  function DeserializedTables(b: seq<bv8>): Option<(seq<AndGateTable>, seq<Block>, Tail)> {
    match TakeLength(b, 32)
    case None => None
    case Some(n) =>
      match DeserializedKeys(b[8 + 32 * n..])
      case None => None
      case Some((keys, t)) => Some((TakeTables(b[8..], n), keys, t))
  }

  /** What a blob says; nothing if it is shorter than the lengths it announces. */
  function Deserialized(b: seq<bv8>): Option<TablesMsg> {
    if |b| < 32 then None else
      match DeserializedTables(b[32..])
      case None => None
      case Some((tables, keys, t)) => Some(TablesMsg(b[..16], b[16..32], tables, keys, t.outDecode, t.gcHash, t.rRoot))
  }

  lemma TakeLengthOf(n: nat, unit: nat, rest: seq<bv8>)
    requires n < U64_LIMIT && unit * n <= |rest|
    ensures TakeLength(LittleEndian(n, 8) + rest, unit) == Some(n)
    ensures (LittleEndian(n, 8) + rest)[8..] == rest
  {
    var b := LittleEndian(n, 8) + rest;
    assert b[..8] == LittleEndian(n, 8) && b[8..] == rest;
    U64RoundTrip(n);
  }

  lemma SkipHead(a: seq<bv8>, head: seq<bv8>, rest: seq<bv8>)
    ensures (a + (head + rest))[|a| + |head|..] == rest
  {
  }

  lemma TailRoundTrip(t: Tail)
    requires |t.outDecode| < U64_LIMIT
    ensures DeserializedTail(SerializedTail(t)) == Some(t)
  {
    var n, hashes := |t.outDecode|, t.gcHash + t.rRoot;
    var rest := t.outDecode + hashes;
    var b := SerializedTail(t);
    TakeLengthOf(n, 1, rest);
    assert b[8..8 + n] == b[8..][..n] == t.outDecode;
    SkipHead(LittleEndian(n, 8), t.outDecode, hashes);
    assert b[8 + n..] == hashes;
    assert b[8 + n..8 + n + 32] == hashes[..32] == t.gcHash;
    assert b[8 + n + 32..8 + n + 64] == hashes[32..] == t.rRoot;
  }

  lemma KeysRoundTrip(keys: seq<Block>, t: Tail)
    requires |keys| < U64_LIMIT && |t.outDecode| < U64_LIMIT
    ensures DeserializedKeys(SerializedKeys(keys, t)) == Some((keys, t))
  {
    TakeLengthOf(|keys|, 16, Flat(keys) + SerializedTail(t));
    SkipHead(LittleEndian(|keys|, 8), Flat(keys), SerializedTail(t));
    TakeFlat(keys, SerializedTail(t));
    TailRoundTrip(t);
  }

  lemma LengthThenRows(n: nat, rows: seq<bv8>, rest: seq<bv8>)
    requires n < U64_LIMIT && |rows| == 32 * n
    ensures var b := LittleEndian(n, 8) + (rows + rest);
            && TakeLength(b, 32) == Some(n)
            && b[8..] == rows + rest
            && b[8 + 32 * n..] == rest
  {
    TakeLengthOf(n, 32, rows + rest);
    SkipHead(LittleEndian(n, 8), rows, rest);
  }

  lemma TablesFlat(tables: seq<AndGateTable>, rest: seq<bv8>)
    ensures Tables(TakeBlocks(Flat(Rows(tables)) + rest, 2 * |tables|)) == tables
  {
    TakeFlat(Rows(tables), rest);
    TablesOfRows(tables);
  }

  lemma TablesRoundTrip(tables: seq<AndGateTable>, keys: seq<Block>, t: Tail)
    requires |tables| < U64_LIMIT && |keys| < U64_LIMIT && |t.outDecode| < U64_LIMIT
    ensures DeserializedTables(SerializedTables(tables, keys, t)) == Some((tables, keys, t))
  {
    LengthThenRows(|tables|, Flat(Rows(tables)), SerializedKeys(keys, t));
    TablesFlat(tables, SerializedKeys(keys, t));
    KeysRoundTrip(keys, t);
  }

  /** Reading back a serialised message gives the message. */
  lemma RoundTrip(m: TablesMsg)
    requires |m.tables| < U64_LIMIT && |m.keyWire0| < U64_LIMIT && |m.outDecode| < U64_LIMIT
    ensures Deserialized(Serialized(m)) == Some(m)
  {
    var t := Tail(m.outDecode, m.gcHash, m.rRoot);
    var b, rest := Serialized(m), SerializedTables(m.tables, m.keyWire0, t);
    SkipHead(m.aesKey, m.delta, rest);
    assert b[..16] == m.aesKey;
    assert b[16..32] == m.delta;
    TablesRoundTrip(m.tables, m.keyWire0, t);
  }

  lemma RowsSnoc(tables: seq<AndGateTable>, i: nat)
    requires i < |tables|
    ensures Flat(Rows(tables[..i + 1])) == Flat(Rows(tables[..i])) + tables[i].T0 + tables[i].T1
  {
    assert tables[..i + 1][..i] == tables[..i];
    var rows := Rows(tables[..i]);
    FlatSnoc(rows, tables[i].T0);
    FlatSnoc(rows + [tables[i].T0], tables[i].T1);
    assert Rows(tables[..i + 1]) == rows + [tables[i].T0] + [tables[i].T1];
  }

  lemma NoRows(tables: seq<AndGateTable>)
    requires |tables| == 0
    ensures Flat(Rows(tables)) == []
  {
  }

  method PushTables(o: seq<bv8>, tables: seq<AndGateTable>) returns (r: seq<bv8>)
    ensures r == o + Flat(Rows(tables))
  {
    hide Flat, Rows;
    r := o;
    NoRows(tables[..0]);
    for i := 0 to |tables|
      invariant r == o + Flat(Rows(tables[..i]))
    {
      RowsSnoc(tables, i);
      r := r + tables[i].T0;
      r := r + tables[i].T1;
    }
    assert tables[..|tables|] == tables;
  }

  lemma {:induction false} FlatSnoc(blocks: seq<Block>, x: Block)
    ensures Flat(blocks + [x]) == Flat(blocks) + x
  {
    if blocks == [] {
      assert [x][1..] == [];
    } else {
      FlatSnoc(blocks[1..], x);
      assert (blocks + [x])[1..] == blocks[1..] + [x];
    }
  }

  /** serialize_tables */
  method SerializeTables(m: TablesMsg) returns (o: seq<bv8>)
    ensures o == Serialized(m)
  {
    o := m.aesKey;
    o := o + m.delta;
    o := PushU64(o, |m.tables|);
    o := PushTables(o, m.tables);
    o := PushU64(o, |m.keyWire0|);
    o := PushBlocks(o, m.keyWire0);
    o := PushU64(o, |m.outDecode|);
    o := o + m.outDecode;
    o := o + m.gcHash;
    o := o + m.rRoot;
    Associate(m);
  }

  lemma Associate(m: TablesMsg)
    ensures m.aesKey + m.delta + LittleEndian(|m.tables|, 8) + Flat(Rows(m.tables))
            + LittleEndian(|m.keyWire0|, 8) + Flat(m.keyWire0)
            + LittleEndian(|m.outDecode|, 8) + m.outDecode + m.gcHash + m.rRoot == Serialized(m)
  {
    hide Flat, Rows, LittleEndian;
    var t := Tail(m.outDecode, m.gcHash, m.rRoot);
    var a := m.aesKey + m.delta;
    var b := a + LittleEndian(|m.tables|, 8) + Flat(Rows(m.tables));
    var c := b + LittleEndian(|m.keyWire0|, 8) + Flat(m.keyWire0);
    Concat3(c, LittleEndian(|m.outDecode|, 8), m.outDecode, m.gcHash + m.rRoot);
    assert c + LittleEndian(|m.outDecode|, 8) + m.outDecode + m.gcHash + m.rRoot == c + SerializedTail(t);
    Concat3(b, LittleEndian(|m.keyWire0|, 8), Flat(m.keyWire0), SerializedTail(t));
    assert c + SerializedTail(t) == b + SerializedKeys(m.keyWire0, t);
    Concat3(a, LittleEndian(|m.tables|, 8), Flat(Rows(m.tables)), SerializedKeys(m.keyWire0, t));
    assert b + SerializedKeys(m.keyWire0, t) == a + SerializedTables(m.tables, m.keyWire0, t);
  }

  lemma Concat3(a: seq<bv8>, b: seq<bv8>, c: seq<bv8>, d: seq<bv8>)
    ensures a + b + c + d == a + (b + (c + d))
  {
  }

  /** deserialize_tables: the offset runs through the blob. */
  method DeserializeTables(b: seq<bv8>) returns (m: TablesMsg)
    requires Deserialized(b).Some?
    ensures m == Deserialized(b).value
  {
    var aesKey, delta := b[0..16], b[16..32];
    var tables, off1 := ReadTables(b, 32);
    var keys, off2 := ReadKeys(b, off1);
    var t := ReadTail(b, off2);
    m := TablesMsg(aesKey, delta, tables, keys, t.outDecode, t.gcHash, t.rRoot);
  }

  method ReadTail(b: seq<bv8>, off: nat) returns (t: Tail)
    requires off <= |b| && DeserializedTail(b[off..]).Some?
    ensures t == DeserializedTail(b[off..]).value
  {
    ghost var tail := b[off..];
    var nd, off' := TakeU64(b, off);
    assert b[off..off + 8] == tail[..8];
    t := Tail(b[off'..off' + nd], b[off' + nd..off' + nd + 32], b[off' + nd + 32..off' + nd + 64]);
    assert t.outDecode == tail[8..8 + nd];
    assert t.gcHash == tail[8 + nd..8 + nd + 32];
    assert t.rRoot == tail[8 + nd + 32..8 + nd + 64];
  }

  method ReadTables(b: seq<bv8>, off: nat) returns (tables: seq<AndGateTable>, next: nat)
    requires off <= |b| && TakeLength(b[off..], 32).Some?
    ensures next == off + 8 + 32 * TakeLength(b[off..], 32).value <= |b|
    ensures tables == Tables(TakeBlocks(b[off..][8..], 2 * TakeLength(b[off..], 32).value))
    ensures b[next..] == b[off..][8 + 32 * TakeLength(b[off..], 32).value..]
  {
    var n;
    n, next := TakeU64(b, off);
    assert b[off..][..8] == b[off..off + 8] && b[off..][8..] == b[next..];
    var rows;
    rows, next := TakeBlocksFrom(b, next, 2 * n);
    tables := Tables(rows);
  }

  method ReadKeys(b: seq<bv8>, off: nat) returns (keys: seq<Block>, next: nat)
    requires off <= |b| && TakeLength(b[off..], 16).Some?
    ensures next == off + 8 + 16 * TakeLength(b[off..], 16).value <= |b|
    ensures keys == TakeBlocks(b[off..][8..], TakeLength(b[off..], 16).value)
    ensures b[next..] == b[off..][8 + 16 * TakeLength(b[off..], 16).value..]
  {
    var n;
    n, next := TakeU64(b, off);
    assert b[off..][..8] == b[off..off + 8] && b[off..][8..] == b[next..];
    keys, next := TakeBlocksFrom(b, next, n);
  }

  // ----- Blobs on the channel -----

  /** A blob's last block is padded with zeros. */
  function Padded(data: seq<bv8>): (b: seq<bv8>)
    ensures |b| == (|data| + 15) / 16 * 16
    ensures b[..|data|] == data
  {
    data + seq((|data| + 15) / 16 * 16 - |data|, _ => 0)
  }

  function LengthBlock(n: nat): Block {
    LittleEndian(n, 8) + [0, 0, 0, 0, 0, 0, 0, 0]
  }

  /** send_blob: a length block, then the data in blocks; the channel is a queue of blocks. */
  method SendBlob(channel: seq<Block>, data: seq<bv8>) returns (channel': seq<Block>)
    ensures channel' == channel + Framed(data)
  {
    var len := PushU64([], |data|);
    var nblk := (|data| + 15) / 16;
    var blocks, _ := TakeBlocksFrom(Padded(data), 0, nblk);
    assert Padded(data)[0..] == Padded(data);
    assert len == LittleEndian(|data|, 8);
    var lenBlock: Block := len + [0, 0, 0, 0, 0, 0, 0, 0];
    channel' := channel + [lenBlock] + blocks;
    AssociateBlocks(channel, [lenBlock], blocks);
  }

  lemma AssociateBlocks(a: seq<Block>, b: seq<Block>, c: seq<Block>)
    ensures a + b + c == a + (b + c)
  {
  }

  function Framed(data: seq<bv8>): (f: seq<Block>)
    ensures |f| == 1 + (|data| + 15) / 16
  {
    [LengthBlock(|data|)] + TakeBlocks(Padded(data), (|data| + 15) / 16)
  }

  /** The blob at the front of a channel, and what follows it. */
  function Unframed(channel: seq<Block>): Option<(seq<bv8>, seq<Block>)> {
    if channel == [] then None else
      var n := Value(channel[0][..8]);
      var nblk := (n + 15) / 16;
      if |channel| < 1 + nblk then None else Some((Flat(channel[1..1 + nblk])[..n], channel[1 + nblk..]))
  }

  /** recv_blob */
  method RecvBlob(channel: seq<Block>) returns (data: seq<bv8>, channel': seq<Block>)
    requires Unframed(channel).Some?
    ensures (data, channel') == Unframed(channel).value
  {
    var n, _ := TakeU64(channel[0], 0);
    assert channel[0][0..8] == channel[0][..8];
    var nblk := (n + 15) / 16;
    var bytes := PushBlocks([], channel[1..1 + nblk]);
    assert [] + Flat(channel[1..1 + nblk]) == Flat(channel[1..1 + nblk]);
    data, channel' := bytes[..n], channel[1 + nblk..];
  }

  lemma {:induction false} FlatTake(b: seq<bv8>, n: nat)
    requires |b| == 16 * n
    ensures Flat(TakeBlocks(b, n)) == b
  {
    if n > 0 {
      FlatTake(b[16..], n - 1);
      var t := TakeBlocks(b, n);
      assert t[0] == b[..16] && t[1..] == TakeBlocks(b[16..], n - 1);
    }
  }

  /** A blob sent arrives unchanged and leaves the rest of the channel in place. */
  lemma BlobArrives(data: seq<bv8>, rest: seq<Block>)
    requires |data| < U64_LIMIT
    ensures Unframed(Framed(data) + rest) == Some((data, rest))
  {
    var channel := Framed(data) + rest;
    var nblk := (|data| + 15) / 16;
    assert channel[0][..8] == LittleEndian(|data|, 8);
    U64RoundTrip(|data|);
    FlatTake(Padded(data), nblk);
    assert channel[1..1 + nblk] == TakeBlocks(Padded(data), nblk);
    assert channel[1 + nblk..] == rest;
  }
}
