/** The allocator for freed memory blocks: a map from addresses to sizes, and sets of addresses by size, the sizes
    sorted into 64 buckets by their logarithm. */
module FreeBlocks {
  import opened Powers

  const LIMIT: nat := 0x1_0000_0000_0000_0000

  /** The bucket of a size; any monotone function with 64 values will do for the integer logarithm. */
  type Log = nat -> nat

  ghost predicate BucketsOk(log: Log) {
    (forall s: nat :: 1 <= s < LIMIT ==> log(s) < 64)
    && (forall s: nat, t: nat {:trigger log(s), log(t)} :: 1 <= s <= t < LIMIT ==> log(s) <= log(t))
  }

  /** The logarithm to base 2, rounded down. */
  function FloorLog2(s: nat): nat {
    if s < 2 then 0 else 1 + FloorLog2(s / 2)
  }

  lemma {:induction false} FloorLog2Grows(s: nat, t: nat)
    requires s <= t
    ensures FloorLog2(s) <= FloorLog2(t)
    decreases t
  {
    if s >= 2 {
      FloorLog2Grows(s / 2, t / 2);
    }
  }

  lemma {:induction false} FloorLog2Below(s: nat, k: nat)
    requires k > 0 && s < Pow2(k)
    ensures FloorLog2(s) < k
    decreases k
  {
    if s >= 2 {
      FloorLog2Below(s / 2, k - 1);
    }
  }

  lemma Limit()
    ensures Pow2(64) == LIMIT
  {
    assert Pow2(8) == 0x100;
    hide Pow2;
    Pow2Splits(8, 8);
    Pow2Splits(16, 16);
    Pow2Splits(32, 32);
  }

  lemma {:induction false} FloorLog2Is(s: nat)
    requires s >= 1
    ensures Pow2(FloorLog2(s)) <= s < Pow2(FloorLog2(s) + 1)
  {
    if s >= 2 {
      FloorLog2Is(s / 2);
    }
  }

  /** The integer logarithm sorts into 64 buckets. */
  lemma FloorLog2Buckets()
    ensures BucketsOk(FloorLog2)
  {
    hide Pow2;
    Limit();
    forall s: nat | 1 <= s < LIMIT ensures FloorLog2(s) < 64 {
      FloorLog2Below(s, 64);
    }
    forall s: nat, t: nat | 1 <= s <= t < LIMIT ensures FloorLog2(s) <= FloorLog2(t) {
      FloorLog2Grows(s, t);
    }
  }

  type Sizes = map<nat, set<int>>

  // ----- Cells -----

  predicate InBlock(c: int, address: int, size: nat) {
    address <= c < address + size
  }

  ghost function Block(address: int, size: nat): iset<int> {
    iset c: int {:trigger InBlock(c, address, size)} | InBlock(c, address, size)
  }

  /** The cells of all blocks. */
  ghost function Cells(blocks: map<int, nat>): iset<int> {
    iset c: int {:trigger Covered(blocks, c)} | Covered(blocks, c)
  }

  ghost predicate Covered(blocks: map<int, nat>, c: int) {
    exists a :: a in blocks && InBlock(c, a, blocks[a])
  }

  ghost predicate Disjoint(blocks: map<int, nat>) {
    forall a: int, b: int {:trigger Before(blocks, a, b)} :: a in blocks && b in blocks && a < b ==>
      Before(blocks, a, b)
  }

  predicate Before(blocks: map<int, nat>, a: int, b: int)
    requires a in blocks
  {
    a + blocks[a] <= b
  }

  ghost predicate SizesOk(blocks: map<int, nat>) {
    forall a :: a in blocks ==> 1 <= blocks[a] < LIMIT
  }

  lemma CellsWithout(blocks: map<int, nat>, a: int)
    requires Disjoint(blocks) && SizesOk(blocks) && a in blocks
    ensures Cells(blocks - {a}) == Cells(blocks) - Block(a, blocks[a])
  {
    var rest := blocks - {a};
    forall c: int | c in Cells(rest) ensures c in Cells(blocks) && !InBlock(c, a, blocks[a]) {
      var b :| b in rest && InBlock(c, b, rest[b]);
      assert blocks[b] == rest[b];
      assert a < b ==> Before(blocks, a, b);
      assert b < a ==> Before(blocks, b, a);
    }
    forall c: int | c in Cells(blocks) && !InBlock(c, a, blocks[a]) ensures c in Cells(rest) {
      var b :| b in blocks && InBlock(c, b, blocks[b]);
      assert b in rest && rest[b] == blocks[b];
    }
  }

  lemma CellsWith(blocks: map<int, nat>, a: int, size: nat)
    requires a !in blocks
    ensures Cells(blocks[a := size]) == Cells(blocks) + Block(a, size)
  {
    var more := blocks[a := size];
    forall c: int ensures c in Cells(more) <==> c in Cells(blocks) || InBlock(c, a, size) {
      if c in Cells(blocks) {
        var b :| b in blocks && InBlock(c, b, blocks[b]);
        assert b in more && more[b] == blocks[b];
      }
      if InBlock(c, a, size) {
        assert more[a] == size;
      }
    }
  }

  /** A block without free cells keeps clear of all free blocks. */
  lemma Apart(blocks: map<int, nat>, address: int, size: nat, a: int)
    requires SizesOk(blocks) && size > 0 && Cells(blocks) !! Block(address, size) && a in blocks
    ensures a + blocks[a] <= address || address + size <= a
  {
    var c := if a < address then address else a;
    assert InBlock(c, a, blocks[a]) ==> c in Cells(blocks);
    assert InBlock(c, address, size) ==> c in Block(address, size);
  }

  // ----- Buckets -----

  predicate InBucket(buckets: seq<Sizes>, log: Log, s: nat, a: int)
    requires |buckets| == 64
  {
    1 <= s < LIMIT && log(s) < 64 && s in buckets[log(s)] && a in buckets[log(s)][s]
  }

  /** The two indexes describe the same blocks. */
  ghost predicate Agrees(blocks: map<int, nat>, buckets: seq<Sizes>, log: Log) {
    |buckets| == 64
    && (forall a: int, s: nat {:trigger InBucket(buckets, log, s, a)} ::
          InBucket(buckets, log, s, a) <==> a in blocks && blocks[a] == s)
    && (forall l: nat, s: nat {:trigger s in buckets[l]} :: l < 64 && s in buckets[l] && buckets[l][s] != {} ==>
          1 <= s < LIMIT && log(s) == l)
  }

  function With(buckets: seq<Sizes>, log: Log, s: nat, a: int): (r: seq<Sizes>)
    requires |buckets| == 64 && log(s) < 64
    ensures |r| == 64
  {
    var l := log(s);
    var addresses: set<int> := if s in buckets[l] then buckets[l][s] else {};
    var sizes: Sizes := buckets[l][s := addresses + {a}];
    buckets[l := sizes]
  }

  function Without(buckets: seq<Sizes>, log: Log, s: nat, a: int): (r: seq<Sizes>)
    requires |buckets| == 64 && log(s) < 64 && s in buckets[log(s)]
    ensures |r| == 64
  {
    var l := log(s);
    var sizes: Sizes := buckets[l][s := buckets[l][s] - {a}];
    buckets[l := sizes]
  }

  lemma AgreesWith(blocks: map<int, nat>, buckets: seq<Sizes>, log: Log, a: int, s: nat)
    requires Agrees(blocks, buckets, log) && BucketsOk(log) && a !in blocks && 1 <= s < LIMIT
    ensures Agrees(blocks[a := s], With(buckets, log, s, a), log)
  {
    var more := With(buckets, log, s, a);
    forall b: int, t: nat {:trigger InBucket(more, log, t, b)}
      ensures InBucket(more, log, t, b) <==> InBucket(buckets, log, t, b) || (b == a && t == s)
    {
    }
  }

  lemma AgreesWithout(blocks: map<int, nat>, buckets: seq<Sizes>, log: Log, a: int)
    requires Agrees(blocks, buckets, log) && SizesOk(blocks) && a in blocks
    ensures log(blocks[a]) < 64 && blocks[a] in buckets[log(blocks[a])]
    ensures Agrees(blocks - {a}, Without(buckets, log, blocks[a], a), log)
  {
    var s := blocks[a];
    assert InBucket(buckets, log, s, a);
    var less := Without(buckets, log, s, a);
    forall b: int, t: nat {:trigger InBucket(less, log, t, b)}
      ensures InBucket(less, log, t, b) <==> InBucket(buckets, log, t, b) && !(b == a && t == s)
    {
    }
  }

  lemma SomeAddress(s: set<int>)
    requires s != {}
    ensures exists a :: a in s
  {
    if forall a: int :: a !in s {
      NoAddress(s);
    }
  }

  lemma NoAddress(s: set<int>)
    requires forall a: int :: a !in s
    ensures s == {}
  {
    assert forall a: int :: a in s <==> a in {};
  }

  lemma DisjointWithout(blocks: map<int, nat>, a: int)
    requires Disjoint(blocks)
    ensures Disjoint(blocks - {a})
  {
    forall b: int, c: int | b in blocks - {a} && c in blocks - {a} && b < c ensures Before(blocks - {a}, b, c) {
      assert Before(blocks, b, c);
    }
  }

  lemma DisjointWith(blocks: map<int, nat>, a: int, size: nat)
    requires Disjoint(blocks) && SizesOk(blocks) && size > 0 && Cells(blocks) !! Block(a, size)
    ensures a !in blocks && Disjoint(blocks[a := size])
  {
    if a in blocks {
      Apart(blocks, a, size, a);
    }
    var more := blocks[a := size];
    forall b: int, c: int | b in more && c in more && b < c ensures Before(more, b, c) {
      if b == a {
        Apart(blocks, a, size, c);
      } else if c == a {
        Apart(blocks, a, size, b);
      } else {
        assert Before(blocks, b, c);
      }
    }
  }

  // ----- What a request does to the free blocks -----

  /** A freed block and the free block right behind it are one. */
  ghost function Joined(blocks: map<int, nat>, address: int, size: nat): map<int, nat> {
    var next := address + size;
    (blocks - {next})[address := size + if next in blocks then blocks[next] else 0]
  }

  ghost predicate SomeFits(blocks: map<int, nat>, size: nat) {
    exists a :: a in blocks && blocks[a] >= size
  }

  /** The block at a is large enough. It has the very size if some block has, and is in the lowest bucket that will do.
      */
  ghost predicate Fits(log: Log, blocks: map<int, nat>, a: int, size: nat) {
    && a in blocks && size <= blocks[a]
    && ((exists b :: b in blocks && blocks[b] == size) ==> blocks[a] == size)
    && forall b :: b in blocks && blocks[b] >= size ==> log(blocks[a]) <= log(blocks[b])
  }

  /** What is left of the free blocks when the front of the one at a is taken. */
  ghost function Cut(blocks: map<int, nat>, a: int, size: nat): map<int, nat>
    requires a in blocks && size <= blocks[a]
  {
    if blocks[a] == size then blocks - {a} else (blocks - {a})[a + size := blocks[a] - size]
  }

  class BlockAllocator {
    const log: Log
    var byLogsize: seq<Sizes>
    var byAddress: map<int, nat>

    ghost predicate Valid()
      reads this
    {
      BucketsOk(log) && SizesOk(byAddress) && Disjoint(byAddress) && Agrees(byAddress, byLogsize, log)
    }

    constructor (log: Log)
      requires BucketsOk(log)
      ensures this.log == log && Valid() && byAddress == map[]
    {
      this.log := log;
      byLogsize := seq(64, _ => map[]);
      byAddress := map[];
    }

    /** Takes a free block out of both indexes. */
    method Remove(a: int)
      requires Valid() && a in byAddress
      modifies this
      ensures Valid() && byAddress == old(byAddress) - {a}
      ensures Cells(byAddress) == Cells(old(byAddress)) - Block(a, old(byAddress)[a])
    {
      AgreesWithout(byAddress, byLogsize, log, a);
      CellsWithout(byAddress, a);
      DisjointWithout(byAddress, a);
      byLogsize := Without(byLogsize, log, byAddress[a], a);
      byAddress := byAddress - {a};
    }

    /** Puts a block into both indexes. */
    method Insert(a: int, size: nat)
      requires Valid() && 1 <= size < LIMIT && Cells(byAddress) !! Block(a, size)
      modifies this
      ensures Valid() && byAddress == old(byAddress)[a := size]
      ensures Cells(byAddress) == Cells(old(byAddress)) + Block(a, size)
    {
      DisjointWith(byAddress, a, size);
      AgreesWith(byAddress, byLogsize, log, a, size);
      CellsWith(byAddress, a, size);
      byLogsize := With(byLogsize, log, size, a);
      byAddress := byAddress[a := size];
    }

    /** push: a freed block joins the free block right behind it. The size may be too large for the buckets. */
    method Push(address: int, size: nat) returns (ok: bool)
      requires Valid() && size > 0 && Cells(byAddress) !! Block(address, size)
      modifies this
      ensures Valid()
      ensures var next := address + size;
              var total := size + if next in old(byAddress) then old(byAddress)[next] else 0;
              && ok == (total < LIMIT)
              && byAddress == (if ok then Joined(old(byAddress), address, size) else old(byAddress) - {next})
              && (ok ==> Cells(byAddress) == Cells(old(byAddress)) + Block(address, size))
    {
      var end, total := address + size, size;
      if end in byAddress {
        total := total + byAddress[end];
        CellsWithout(byAddress, end);
        Remove(end);
      }
      assert byAddress == old(byAddress) - {end};
      if total >= LIMIT {
        return false;
      }
      assert Block(address, total) == Block(address, size) + Block(end, total - size);
      Insert(address, total);
      ok := true;
    }

    /** The addresses of a size, if the size has been seen. */
    function Addresses(s: nat): set<int>
      requires |byLogsize| == 64 && log(s) < 64
      reads this
    {
      if s in byLogsize[log(s)] then byLogsize[log(s)][s] else {}
    }

    /** A size of bucket l that is at least `size` and has blocks; the order in which sizes are tried is left open. */
    method Search(l: nat, size: nat) returns (blockSize: nat)
      requires Valid() && l < 64
      ensures blockSize > 0 ==> blockSize >= size && blockSize in byLogsize[l] && byLogsize[l][blockSize] != {}
      ensures blockSize == 0 ==> forall s: nat {:trigger s in byLogsize[l]} ::
                s >= size && s > 0 && s in byLogsize[l] ==> byLogsize[l][s] == {}
    {
      var left := byLogsize[l].Keys;
      blockSize := 0;
      while left != {}
        invariant left <= byLogsize[l].Keys
        invariant forall s: nat {:trigger s in byLogsize[l]} ::
                    s in byLogsize[l] && s !in left && s >= size && s > 0 ==> byLogsize[l][s] == {}
        decreases left
      {
        var s :| s in left;
        if s >= size && byLogsize[l][s] != {} && s > 0 {
          return s;
        }
        left := left - {s};
      }
    }

    /** The size of the block to cut: the size itself, a larger one of the same bucket, or any of the next bucket that
        has blocks. */
    method BlockSize(size: nat) returns (blockSize: nat)
      requires Valid() && 1 <= size < LIMIT
      ensures blockSize > 0 ==> size <= blockSize < LIMIT && Addresses(blockSize) != {}
      ensures blockSize > 0 && Addresses(size) != {} ==> blockSize == size
      ensures blockSize > 0 ==> forall a :: a in byAddress && byAddress[a] >= size ==>
        log(blockSize) <= log(byAddress[a])
      ensures blockSize == 0 ==> forall a :: a in byAddress ==> byAddress[a] < size
    {
      assert log(size) < 64;
      if Addresses(size) != {} {
        return size;
      }
      blockSize := Search(log(size), size);
      if blockSize > 0 {
        assert log(blockSize) == log(size);
        return;
      }
      var l := log(size) + 1;
      while l < 64
        invariant log(size) < l <= 64 && blockSize == 0
        invariant NothingUpTo(size, l)
      {
        blockSize := Search(l, 0);
        if blockSize > 0 {
          LaterIsLarger(size, blockSize, l);
          NoneEarlier(size, l);
          return;
        }
        l := l + 1;
      }
      AllSmaller(size);
    }

    /** No block that fits is in the buckets before l. */
    ghost predicate NothingUpTo(size: nat, l: nat)
      requires |byLogsize| == 64 && l <= 64
      reads this
    {
      forall k: nat, s: nat {:trigger s in byLogsize[k]} ::
        log(size) <= k < l && s in byLogsize[k] && (s >= size || k > log(size)) && s > 0 ==> byLogsize[k][s] == {}
    }

    lemma LaterIsLarger(size: nat, s: nat, l: nat)
      requires Valid() && 1 <= size < LIMIT && log(size) < l < 64 && s in byLogsize[l] && byLogsize[l][s] != {}
      ensures size < s < LIMIT && log(s) == l
    {
      assert log(s) == l;
    }

    lemma NoneEarlier(size: nat, l: nat)
      requires Valid() && 1 <= size < LIMIT && l <= 64 && NothingUpTo(size, l)
      ensures forall a :: a in byAddress && byAddress[a] >= size ==> l <= log(byAddress[a])
    {
      forall a | a in byAddress && byAddress[a] >= size ensures l <= log(byAddress[a]) {
        var s := byAddress[a];
        assert InBucket(byLogsize, log, s, a);
        assert s in byLogsize[log(s)] && byLogsize[log(s)][s] != {};
      }
    }

    lemma AllSmaller(size: nat)
      requires Valid() && 1 <= size < LIMIT && NothingUpTo(size, 64)
      ensures forall a :: a in byAddress ==> byAddress[a] < size
    {
      forall a | a in byAddress ensures byAddress[a] < size {
        var s := byAddress[a];
        assert InBucket(byLogsize, log, s, a);
        assert s in byLogsize[log(s)] && byLogsize[log(s)][s] != {};
      }
    }

    /** pop: the front of a free block, or nothing exactly if every free block is too small. The block has the very size
        asked for if there is one, and otherwise comes from the lowest bucket that has one large enough. */
    method Pop(size: nat) returns (found: bool, addr: int)
      requires Valid() && 1 <= size < LIMIT
      modifies this
      ensures Valid()
      ensures found == SomeFits(old(byAddress), size)
      ensures found ==>
        Block(addr, size) <= Cells(old(byAddress)) && Cells(byAddress) == Cells(old(byAddress)) - Block(addr, size)
      ensures found ==> Fits(log, old(byAddress), addr, size) && byAddress == Cut(old(byAddress), addr, size)
      ensures !found ==> byAddress == old(byAddress)
    {
      ExactSize(size);
      var blockSize := BlockSize(size);
      addr := 0;
      if blockSize == 0 {
        return false, 0;
      }
      var addresses := Addresses(blockSize);
      SomeAddress(addresses);
      var a :| a in addresses;
      assert InBucket(byLogsize, log, blockSize, a);
      Split(byAddress, a, size);
      Remove(a);
      if blockSize > size {
        Insert(a + size, blockSize - size);
      }
      found, addr := true, a;
    }

    lemma ExactSize(size: nat)
      requires Valid() && 1 <= size < LIMIT
      ensures (exists a :: a in byAddress && byAddress[a] == size) ==> Addresses(size) != {}
    {
      forall a | a in byAddress && byAddress[a] == size ensures Addresses(size) != {} {
        assert InBucket(byLogsize, log, size, a);
      }
    }

    lemma Split(blocks: map<int, nat>, a: int, size: nat)
      requires a in blocks && size <= blocks[a]
      ensures Block(a, blocks[a]) == Block(a, size) + Block(a + size, blocks[a] - size)
      ensures Block(a, size) !! Block(a + size, blocks[a] - size)
      ensures Block(a, blocks[a]) <= Cells(blocks)
    {
      forall c | c in Block(a, blocks[a]) ensures c in Cells(blocks) {
        assert InBlock(c, a, blocks[a]);
      }
    }
  }

  // ----- Runs -----

  /** A block taken and not given back. */
  datatype Taken = Taken(address: int, size: nat)

  ghost function TakenCells(taken: seq<Taken>): iset<int> {
    iset c: int {:trigger CoveredBy(taken, c)} | CoveredBy(taken, c)
  }

  ghost predicate CoveredBy(taken: seq<Taken>, c: int) {
    exists i :: 0 <= i < |taken| && InBlock(c, taken[i].address, taken[i].size)
  }

  ghost predicate NoOverlap(taken: seq<Taken>) {
    forall i, j :: 0 <= i < j < |taken| ==>
      Block(taken[i].address, taken[i].size) !! Block(taken[j].address, taken[j].size)
  }

  /** All memory is below the largest size. */
  ghost predicate Addressable(cells: iset<int>) {
    forall c :: c in cells ==> 0 <= c < LIMIT - 1
  }

  lemma TakenMore(taken: seq<Taken>, t: Taken)
    ensures TakenCells(taken + [t]) == TakenCells(taken) + Block(t.address, t.size)
    ensures NoOverlap(taken) && TakenCells(taken) !! Block(t.address, t.size) ==> NoOverlap(taken + [t])
  {
    var more := taken + [t];
    assert more[|taken|] == t;
    forall c | c in TakenCells(taken) ensures c in TakenCells(more) {
      var i :| 0 <= i < |taken| && InBlock(c, taken[i].address, taken[i].size);
      assert more[i] == taken[i];
    }
    forall i, c | 0 <= i < |taken| && InBlock(c, taken[i].address, taken[i].size) ensures c in TakenCells(taken) {
    }
  }

  lemma TakenLess(taken: seq<Taken>, i: nat)
    requires i < |taken| && NoOverlap(taken)
    ensures NoOverlap(taken[..i] + taken[i + 1..])
    ensures TakenCells(taken[..i] + taken[i + 1..]) == TakenCells(taken) - Block(taken[i].address, taken[i].size)
    ensures Block(taken[i].address, taken[i].size) <= TakenCells(taken)
  {
    var less := taken[..i] + taken[i + 1..];
    forall c | c in TakenCells(less) ensures c in TakenCells(taken) && !InBlock(c, taken[i].address, taken[i].size) {
      var j :| 0 <= j < |less| && InBlock(c, less[j].address, less[j].size);
      var l := if j < i then j else j + 1;
      assert less[j] == taken[l];
      assert c in Block(taken[l].address, taken[l].size);
    }
    forall c | c in TakenCells(taken) && !InBlock(c, taken[i].address, taken[i].size) ensures c in TakenCells(less) {
      var l :| 0 <= l < |taken| && InBlock(c, taken[l].address, taken[l].size);
      assert less[if l < i then l else l - 1] == taken[l];
    }
  }

  /** A block of addressable cells is smaller than the limit. */
  lemma FitsLimit(blocks: map<int, nat>, address: int, size: nat)
    requires Addressable(Cells(blocks) + Block(address, size)) && size > 0 && SizesOk(blocks)
    ensures size + (if address + size in blocks then blocks[address + size] else 0) < LIMIT
  {
    var next := address + size;
    var last := if next in blocks then next + blocks[next] - 1 else next - 1;
    assert address in Block(address, size);
    if next in blocks {
      assert InBlock(last, next, blocks[next]);
      assert last in Cells(blocks);
    } else {
      assert last in Block(address, size);
    }
  }

  /** The last block taken is the front of one that fits; without one, nothing is taken. */
  ghost predicate Taking(log: Log, free: map<int, nat>, taken: seq<Taken>, size: nat, free': map<int, nat>,
                         taken': seq<Taken>) {
    if SomeFits(free, size) then
      && |taken'| == |taken| + 1 && taken'[..|taken|] == taken && taken'[|taken|].size == size
      && Fits(log, free, taken'[|taken|].address, size) && free' == Cut(free, taken'[|taken|].address, size)
    else
      free' == free && taken' == taken
  }

  ghost predicate Giving(free: map<int, nat>, taken: seq<Taken>, i: nat, free': map<int, nat>, taken': seq<Taken>)
    requires i < |taken|
  {
    free' == Joined(free, taken[i].address, taken[i].size) && taken' == taken[..i] + taken[i + 1..]
  }

  /** The free blocks and the blocks taken so far: none of them overlap, and together they are all the memory. */
  class Memory {
    const allocator: BlockAllocator
    var taken: seq<Taken>
    ghost var owned: iset<int>

    ghost predicate Valid()
      reads this, allocator
    {
      && allocator.Valid() && NoOverlap(taken) && Addressable(owned)
      && Cells(allocator.byAddress) !! TakenCells(taken)
      && Cells(allocator.byAddress) + TakenCells(taken) == owned
    }

    /** All memory is free at first. */
    constructor (log: Log, address: int, size: nat)
      requires BucketsOk(log) && size > 0 && Addressable(Block(address, size))
      ensures Valid() && fresh(allocator) && taken == [] && owned == Block(address, size)
      ensures allocator.log == log && allocator.byAddress == map[address := size]
    {
      var a := new BlockAllocator(log);
      EmptyCells();
      FitsLimit(a.byAddress, address, size);
      var ok := a.Push(address, size);
      allocator := a;
      taken := [];
      owned := Block(address, size);
      new;
      assert TakenCells(taken) == iset{};
    }

    /** A block from the allocator, if one is large enough. */
    method Take(size: nat) returns (found: bool)
      requires Valid() && 1 <= size < LIMIT
      modifies this, allocator
      ensures Valid() && owned == old(owned)
      ensures Taking(allocator.log, old(allocator.byAddress), old(taken), size, allocator.byAddress, taken)
      ensures found == SomeFits(old(allocator.byAddress), size)
    {
      var addr;
      found, addr := allocator.Pop(size);
      if found {
        TakenMore(taken, Taken(addr, size));
        taken := taken + [Taken(addr, size)];
      }
    }

    /** Any block taken goes back. */
    method Give(i: nat) returns (ok: bool)
      requires Valid() && i < |taken| && taken[i].size > 0
      modifies this, allocator
      ensures Valid() && owned == old(owned) && ok
      ensures Giving(old(allocator.byAddress), old(taken), i, allocator.byAddress, taken)
    {
      var t := taken[i];
      TakenLess(taken, i);
      assert Cells(allocator.byAddress) !! Block(t.address, t.size);
      FitsLimit(allocator.byAddress, t.address, t.size);
      taken := taken[..i] + taken[i + 1..];
      ok := allocator.Push(t.address, t.size);
    }
  }

  /** Freeing a block makes room for all of it together with the free block behind: right after a push that succeeds,
      no free block begins where the pushed one ends, and a block as large as both can be had. */
  method PushThenPop(allocator: BlockAllocator, address: int, size: nat) returns (found: bool, addr: int)
    requires allocator.Valid() && size > 0 && Cells(allocator.byAddress) !! Block(address, size)
    modifies allocator
    ensures var next := address + size;
            var total := size + if next in old(allocator.byAddress) then old(allocator.byAddress)[next] else 0;
            && (found <==> total < LIMIT)
            && (found ==> var cells := Cells(old(allocator.byAddress)) + Block(address, size);
                          Block(addr, total) <= cells && Cells(allocator.byAddress) == cells - Block(addr, total))
  {
    var total := size + if address + size in allocator.byAddress then allocator.byAddress[address + size] else 0;
    found := allocator.Push(address, size);
    addr := 0;
    if found {
      assert address in allocator.byAddress && allocator.byAddress[address] == total;
      assert address + size !in allocator.byAddress;
      found, addr := allocator.Pop(total);
    }
  }

  lemma EmptyCells()
    ensures Cells(map[]) == iset{}
  {
  }

  datatype Op = Pop(size: nat) | Push(index: nat)

  /** Requests for no cells or too many, and returns of blocks not taken, change nothing. */
  ghost predicate Step(log: Log, free: map<int, nat>, taken: seq<Taken>, op: Op, free': map<int, nat>,
                       taken': seq<Taken>) {
    match op
    case Pop(n) =>
      if 1 <= n < LIMIT then Taking(log, free, taken, n, free', taken') else free' == free && taken' == taken
    case Push(i) =>
      if i < |taken| then Giving(free, taken, i, free', taken') else free' == free && taken' == taken
  }

  /** Over every sequence of requests and returns the memory is neither lost nor used twice, and every request is met by
      a block that fits if there is one. */
  method Run(log: Log, address: int, size: nat, ops: seq<Op>)
    returns (memory: Memory, ghost free: seq<map<int, nat>>, ghost taken: seq<seq<Taken>>)
    requires BucketsOk(log) && size > 0 && Addressable(Block(address, size))
    ensures memory.Valid() && memory.owned == Block(address, size)
    ensures |free| == |taken| == |ops| + 1 && free[0] == map[address := size] && taken[0] == []
    ensures forall k :: 0 <= k < |ops| ==> Step(log, free[k], taken[k], ops[k], free[k + 1], taken[k + 1])
    ensures memory.allocator.byAddress == free[|ops|] && memory.taken == taken[|ops|]
  {
    hide Cut, Joined, Fits;
    memory := new Memory(log, address, size);
    free, taken := [memory.allocator.byAddress], [[]];
    for i := 0 to |ops|
      invariant memory.Valid() && memory.owned == Block(address, size) && memory.allocator.log == log
      invariant fresh(memory) && fresh(memory.allocator)
      invariant |free| == |taken| == i + 1 && free[0] == map[address := size] && taken[0] == []
      invariant memory.allocator.byAddress == free[i] && memory.taken == taken[i]
      invariant forall k :: 0 <= k < i ==> Step(log, free[k], taken[k], ops[k], free[k + 1], taken[k + 1])
      invariant forall t :: 0 <= t < |memory.taken| ==> memory.taken[t].size > 0
    {
      match ops[i] {
        case Pop(n) =>
          if 1 <= n < LIMIT {
            var found := memory.Take(n);
          }
        case Push(t) =>
          if t < |memory.taken| {
            var ok := memory.Give(t);
          }
      }
      free, taken := free + [memory.allocator.byAddress], taken + [memory.taken];
    }
  }
}
