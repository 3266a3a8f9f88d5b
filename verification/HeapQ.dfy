/** The oblivious priority queue: a binary heap with a reverse index. Position 1 is the root, position 0
    stays empty. */
module PriorityQueue {
  import opened Oram
  import opened Powers

  datatype Entry = Entry(prio: int, value: int)

  type Heap = seq<Cell<Entry>>

  // ----- What a queue state means -----

  /** `a > b` of heap entries: false as soon as one of them is empty. */
  predicate Greater(a: Cell<Entry>, b: Cell<Entry>) {
    a.Full? && b.Full? && a.value.prio > b.value.prio
  }

  ghost predicate LinkOk(heap: Heap, p: int)
    requires 1 <= p < |heap|
  {
    !Greater(heap[p / 2], heap[p])
  }

  /** Exactly the positions 1 to size are taken. */
  ghost predicate Filled(heap: Heap, size: nat, n: nat) {
    && size < |heap| && heap[0].Empty?
    && forall p {:trigger heap[p]} :: 1 <= p < |heap| ==>
      (heap[p].Full? <==> p <= size) && (heap[p].Full? ==> 0 <= heap[p].value.value < n)
  }

  ghost predicate At(heap: Heap, index: seq<Cell<int>>, p: int)
    requires 0 <= p < |heap|
  {
    heap[p].Full? && 0 <= heap[p].value.value < |index| && index[heap[p].value.value] == Full(p)
  }

  /** The index of a value is the position of its entry, and values in no entry have none. */
  ghost predicate Indexed(heap: Heap, index: seq<Cell<int>>, size: nat) {
    && size < |heap|
    && (forall p {:trigger At(heap, index, p)} :: 1 <= p <= size ==> At(heap, index, p))
    && (forall v {:trigger index[v]} :: 0 <= v < |index| && index[v].Full? ==>
          1 <= index[v].value <= size && heap[index[v].value].Full? && heap[index[v].value].value.value == v)
  }

  ghost predicate Ordered(heap: Heap) {
    forall p {:trigger LinkOk(heap, p)} :: 2 <= p < |heap| ==> LinkOk(heap, p)
  }

  ghost function PrioAt(heap: Heap, p: int): int {
    if 0 <= p < |heap| && heap[p].Full? then heap[p].value.prio else 0
  }

  /** The queue as a map from values to priorities. */
  ghost function Contents(heap: Heap, index: seq<Cell<int>>): map<int, int> {
    map v | 0 <= v < |index| && index[v].Full? :: PrioAt(heap, index[v].value)
  }

  // ----- Exchanging parent and child -----

  ghost predicate Swapped(heap: Heap, index: seq<Cell<int>>, heap': Heap, index': seq<Cell<int>>, p: int)
    requires 1 <= p < |heap| && heap[p].Full? && heap[p / 2].Full?
    requires 0 <= heap[p].value.value < |index| && 0 <= heap[p / 2].value.value < |index|
  {
    && heap' == heap[p := heap[p / 2]][p / 2 := heap[p]]
    && index' == index[heap[p].value.value := Full(p / 2)][heap[p / 2].value.value := Full(p)]
  }

  lemma Half(p: int)
    requires p >= 2
    ensures 1 <= p / 2 < p
  {
  }

  lemma SwapKeeps(heap: Heap, index: seq<Cell<int>>, heap': Heap, index': seq<Cell<int>>, size: nat, p: int)
    requires Filled(heap, size, |index|) && Indexed(heap, index, size) && 2 <= p <= size
    requires heap[p].Full? && heap[p / 2].Full? && At(heap, index, p) && At(heap, index, p / 2)
    requires Swapped(heap, index, heap', index', p)
    ensures Filled(heap', size, |index'|) && Indexed(heap', index', size) && |index'| == |index|
    ensures Contents(heap', index') == Contents(heap, index)
  {
    Half(p);
    var c, q := heap[p].value.value, heap[p / 2].value.value;
    assert c != q;
    forall r {:trigger At(heap', index', r)} | 1 <= r <= size ensures At(heap', index', r) {
      assert At(heap, index, r);
    }
    forall v | 0 <= v < |index| ensures index'[v].Full? <==> index[v].Full?
      ensures index[v].Full? ==> PrioAt(heap', index'[v].value) == PrioAt(heap, index[v].value)
    {
      if index[v].Full? && v != c && v != q {
        assert index[v].value != p && index[v].value != p / 2;
      }
    }
    assert Contents(heap', index').Keys == Contents(heap, index).Keys;
  }

  // ----- Moving up -----

  /** In order with the parent of the parent. */
  ghost predicate GrandOk(heap: Heap, p: int)
    requires 1 <= p < |heap|
  {
    !Greater(heap[p / 2 / 2], heap[p])
  }

  /** Heap order, except that the entry at c may be too small for its parent. */
  ghost predicate OrderedBut(heap: Heap, c: int) {
    && (forall p {:trigger LinkOk(heap, p)} :: 2 <= p < |heap| && p != c ==> LinkOk(heap, p))
    && (forall p {:trigger GrandOk(heap, p)} :: 2 <= c && 2 <= p < |heap| && p / 2 == c ==> GrandOk(heap, p))
  }

  /** The heap after the exchange of c and its parent, if they are in the wrong order. */
  ghost function Exchanged(heap: Heap, c: int): (h: Heap)
    requires 1 <= c < |heap|
    ensures |h| == |heap|
  {
    if Greater(heap[c / 2], heap[c]) then heap[c := heap[c / 2]][c / 2 := heap[c]] else heap
  }

  lemma BubbleStep(heap: Heap, size: nat, n: nat, c: int)
    requires Filled(heap, size, n) && 2 <= c < |heap| && OrderedBut(heap, c)
    ensures OrderedBut(Exchanged(heap, c), c / 2)
  {
    var q, heap' := c / 2, Exchanged(heap, c);
    Half(c);
    if q >= 2 {
      Half(q);
      assert LinkOk(heap, q);
    }
    forall p {:trigger LinkOk(heap', p)} | 2 <= p < |heap'| && p != q ensures LinkOk(heap', p) {
      Half(p);
      assert LinkOk(heap, p) || p == c;
      assert p / 2 == c ==> GrandOk(heap, p);
    }
    forall p {:trigger GrandOk(heap', p)} | 2 <= q && 2 <= p < |heap'| && p / 2 == q ensures GrandOk(heap', p) {
      Half(p);
      assert LinkOk(heap, p) || p == c;
    }
  }

  lemma NothingToMove(heap: Heap, c: int)
    requires Ordered(heap) && 2 <= c < |heap|
    ensures Exchanged(heap, c) == heap
  {
    assert LinkOk(heap, c);
  }

  // ----- Moving down -----

  /** Heap order, except that the entry at h may be too large for its children. */
  ghost predicate OrderedBelow(heap: Heap, h: int) {
    && (forall p {:trigger LinkOk(heap, p)} :: 2 <= p < |heap| && p / 2 != h ==> LinkOk(heap, p))
    && (forall p {:trigger GrandOk(heap, p)} :: 2 <= h && 2 <= p < |heap| && p / 2 == h ==> GrandOk(heap, p))
  }

  lemma Children(h: int, p: int)
    requires h >= 1
    ensures p / 2 == h <==> p == 2 * h || p == 2 * h + 1
  {
  }

  /** c is the child of h with the smaller priority. */
  lemma SiftStep(heap: Heap, size: nat, n: nat, h: int, c: int, other: int)
    requires Filled(heap, size, n) && 1 <= h && 2 * h + 1 < |heap| && OrderedBelow(heap, h)
    requires (c == 2 * h && other == 2 * h + 1) || (c == 2 * h + 1 && other == 2 * h)
    requires if Greater(heap[2 * h], heap[2 * h + 1]) then c == 2 * h + 1 else c == 2 * h
    ensures OrderedBelow(Exchanged(heap, c), c)
  {
    var heap' := Exchanged(heap, c);
    Children(h, c);
    Children(h, other);
    forall p {:trigger LinkOk(heap', p)} | 2 <= p < |heap'| && p / 2 != c ensures LinkOk(heap', p) {
      Half(p);
      Children(h, p);
      if p == h {
        assert LinkOk(heap, h);
        assert GrandOk(heap, c);
      } else if p != c && p != other {
        assert LinkOk(heap, p);
      }
    }
    forall p {:trigger GrandOk(heap', p)} | 2 <= c && 2 <= p < |heap'| && p / 2 == c ensures GrandOk(heap', p) {
      Half(p);
      assert LinkOk(heap, p);
    }
  }

  lemma BottomIsOrdered(heap: Heap, h: int)
    requires OrderedBelow(heap, h) && h >= 1 && 2 * h >= |heap|
    ensures Ordered(heap)
  {
    forall p {:trigger LinkOk(heap, p)} | 2 <= p < |heap| ensures LinkOk(heap, p) {
      Children(h, p);
    }
  }

  // ----- The root -----

  lemma {:induction false} RootIsLeast(heap: Heap, size: nat, n: nat, p: int)
    requires Filled(heap, size, n) && Ordered(heap) && 1 <= p <= size
    ensures heap[1].Full? && heap[p].Full? && heap[1].value.prio <= heap[p].value.prio
    decreases p
  {
    if p > 1 {
      Half(p);
      RootIsLeast(heap, size, n, p / 2);
      assert LinkOk(heap, p);
    }
  }

  /** The index after the exchange of c and its parent. */
  ghost function Reindexed(heap: Heap, index: seq<Cell<int>>, c: int): (r: seq<Cell<int>>)
    requires 1 <= c < |heap|
    requires Greater(heap[c / 2], heap[c]) ==>
      0 <= heap[c].value.value < |index| && 0 <= heap[c / 2].value.value < |index|
    ensures |r| == |index|
  {
    if Greater(heap[c / 2], heap[c]) then
      index[heap[c].value.value := Full(c / 2)][heap[c / 2].value.value := Full(c)]
    else index
  }

  lemma ValuesInRange(heap: Heap, size: nat, n: nat, c: int)
    requires Filled(heap, size, n) && 1 <= c < |heap| && Greater(heap[c / 2], heap[c])
    ensures 2 <= c <= size && 0 <= heap[c].value.value < n && 0 <= heap[c / 2].value.value < n
  {
  }

  lemma ExchangeKeeps(heap: Heap, index: seq<Cell<int>>, size: nat, c: int)
    requires Filled(heap, size, |index|) && 1 <= c < |heap|
    ensures Greater(heap[c / 2], heap[c]) ==>
      0 <= heap[c].value.value < |index| && 0 <= heap[c / 2].value.value < |index|
    ensures Filled(Exchanged(heap, c), size, |index|)
    ensures Indexed(heap, index, size) ==>
      && Indexed(Exchanged(heap, c), Reindexed(heap, index, c), size)
      && Contents(Exchanged(heap, c), Reindexed(heap, index, c)) == Contents(heap, index)
  {
    if Greater(heap[c / 2], heap[c]) {
      ValuesInRange(heap, size, |index|, c);
      Half(c);
      if Indexed(heap, index, size) {
        assert At(heap, index, c) && At(heap, index, c / 2);
        SwapKeeps(heap, index, Exchanged(heap, c), Reindexed(heap, index, c), size, c);
      }
    }
  }

  lemma BitTest(start: nat, p: nat)
    requires p > 0 && start < 2 * p
    ensures start / p % 2 == if start >= p then 1 else 0
  {
    if start >= p {
      assert start / p == 1;
    } else {
      assert start / p == 0;
    }
  }

  lemma TimesBit(b: int, p: nat)
    ensures b == 0 ==> b * p == 0
    ensures b == 1 ==> b * p == p
  {
  }

  lemma Scale(start: nat, levels: nat, j: nat)
    requires j < levels && Pow2(levels - 1 - j) <= start < Pow2(levels - j)
    ensures Pow2(levels - 1) <= start * Pow2(j) < Pow2(levels)
  {
    Pow2Splits(j, levels - 1 - j);
    Pow2Splits(j, levels - j);
    Times(Pow2(levels - 1 - j), start, Pow2(j));
    TimesLess(start, Pow2(levels - j), Pow2(j));
  }

  lemma Times(a: nat, b: nat, m: nat)
    requires a <= b
    ensures a * m <= b * m
  {
  }

  lemma TimesLess(a: nat, b: nat, m: nat)
    requires a < b && m > 0
    ensures a * m < b * m
  {
  }

  function ValueOf(c: Cell<Entry>): int {
    if c.Full? then c.value.value else 0
  }

  /** One step of bubbling up: below the changed entry nothing moves, from there on the gap rises. */
  lemma Rise(heap: Heap, size: nat, n: nat, hole: int, c: int)
    requires Filled(heap, size, n) && 2 <= c < |heap| && OrderedBut(heap, hole)
    ensures c != hole ==> Exchanged(heap, c) == heap
    ensures c == hole ==> OrderedBut(Exchanged(heap, c), c / 2)
    ensures Ordered(heap) ==> Exchanged(heap, c) == heap && !Greater(heap[c / 2], heap[c])
  {
    if c == hole {
      BubbleStep(heap, size, n, c);
    } else {
      assert LinkOk(heap, c);
    }
    if Ordered(heap) {
      assert LinkOk(heap, c);
    }
  }

  /** k levels below, always to the left. */
  ghost function Lift(start: nat, k: nat): nat {
    if k == 0 then start else 2 * Lift(start, k - 1)
  }

  lemma {:induction false} LiftIsScale(start: nat, k: nat)
    ensures Lift(start, k) == start * Pow2(k)
  {
    if k > 0 {
      LiftIsScale(start, k - 1);
      assert start * Pow2(k) == 2 * (start * Pow2(k - 1));
    }
  }

  lemma {:induction false} Above(start: nat, k: nat)
    requires start > 0 && k > 0
    ensures Lift(start, k) > start && Lift(start, k) / 2 == Lift(start, k - 1)
  {
    if k > 1 {
      Above(start, k - 1);
    }
  }

  /** An exchange moves two entries at most; a sound index stays sound and the queue the same. */
  ghost predicate IsExchange(heap: Heap, index: seq<Cell<int>>, heap': Heap, index': seq<Cell<int>>, size: nat, c: int)
    requires 1 <= c < |heap|
  {
    && heap' == Exchanged(heap, c)
    && (!Greater(heap[c / 2], heap[c]) ==> index' == index)
    && (Indexed(heap, index, size) ==> Indexed(heap', index', size) && Contents(heap', index') == Contents(heap, index))
  }

  lemma ContentsAt(heap: Heap, index: seq<Cell<int>>, v: int)
    requires 0 <= v < |index|
    ensures v in Contents(heap, index) <==> index[v].Full?
    ensures index[v].Full? ==> Contents(heap, index)[v] == PrioAt(heap, index[v].value)
  {
  }

  lemma Appended(heap: Heap, index: seq<Cell<int>>, size: nat, value: int, prio: int)
    requires Filled(heap, size, |index|) && Indexed(heap, index, size) && Ordered(heap)
    requires 0 <= value < |index| && index[value].Empty? && size + 1 < |heap|
    ensures var heap', index' := heap[size + 1 := Full(Entry(prio, value))], index[value := Full(size + 1)];
            && Filled(heap', size + 1, |index'|) && Indexed(heap', index', size + 1) && OrderedBut(heap', size + 1)
            && Contents(heap', index') == Contents(heap, index)[value := prio] && value !in Contents(heap, index)
  {
    var heap', index' := heap[size + 1 := Full(Entry(prio, value))], index[value := Full(size + 1)];
    forall p {:trigger At(heap', index', p)} | 1 <= p <= size + 1 ensures At(heap', index', p) {
      if p <= size {
        assert At(heap, index, p);
      }
    }
    forall p {:trigger LinkOk(heap', p)} | 2 <= p < |heap'| && p != size + 1 ensures LinkOk(heap', p) {
      Half(p);
      assert LinkOk(heap, p);
    }
  }

  lemma Decreased(heap: Heap, index: seq<Cell<int>>, size: nat, value: int, prio: int)
    requires Filled(heap, size, |index|) && Indexed(heap, index, size) && Ordered(heap)
    requires 0 <= value < |index| && index[value].Full? && prio <= PrioAt(heap, index[value].value)
    ensures var p := index[value].value;
            && 1 <= p < |heap| && value in Contents(heap, index)
            && var heap' := heap[p := Full(Entry(prio, value))];
            && Filled(heap', size, |index|) && Indexed(heap', index, size) && OrderedBut(heap', p)
            && Contents(heap', index) == Contents(heap, index)[value := prio]
  {
    var c := index[value].value;
    var heap' := heap[c := Full(Entry(prio, value))];
    forall p {:trigger At(heap', index, p)} | 1 <= p <= size ensures At(heap', index, p) {
      assert At(heap, index, p);
    }
    forall p {:trigger LinkOk(heap', p)} | 2 <= p < |heap'| && p != c ensures LinkOk(heap', p) {
      Half(p);
      assert LinkOk(heap, p);
    }
    forall p {:trigger GrandOk(heap', p)} | 2 <= c && 2 <= p < |heap'| && p / 2 == c ensures GrandOk(heap', p) {
      Half(p);
      Half(c);
      assert LinkOk(heap, p) && LinkOk(heap, c);
    }
  }

  lemma RootIsMinimum(heap: Heap, index: seq<Cell<int>>, size: nat)
    requires Filled(heap, size, |index|) && Indexed(heap, index, size) && Ordered(heap) && size >= 1
    ensures heap[1].Full? && heap[1].value.value in Contents(heap, index)
    ensures forall v :: v in Contents(heap, index) ==>
      Contents(heap, index)[heap[1].value.value] <= Contents(heap, index)[v]
  {
    assert At(heap, index, 1);
    forall v | v in Contents(heap, index) ensures PrioAt(heap, 1) <= Contents(heap, index)[v] {
      RootIsLeast(heap, size, |index|, index[v].value);
    }
  }

  /** Heap and index after the last entry took the place of the root. */
  ghost function RootReplaced(heap: Heap, size: nat): (h: Heap)
    requires 1 <= size < |heap|
    ensures |h| == |heap|
  {
    heap[1 := heap[size]][size := Empty]
  }

  lemma Removed(heap: Heap, index: seq<Cell<int>>, size: nat, index': seq<Cell<int>>)
    requires Filled(heap, size, |index|) && Indexed(heap, index, size) && Ordered(heap) && size >= 1
    requires heap[1].Full? && heap[size].Full? && 0 <= heap[1].value.value < |index| &&
      0 <= heap[size].value.value < |index|
    requires index' == if size == 1 then index[heap[1].value.value := Empty]
                       else index[heap[1].value.value := Empty][heap[size].value.value := Full(1)]
    ensures var heap' := RootReplaced(heap, size);
            && Filled(heap', size - 1, |index'|) && Indexed(heap', index', size - 1) && OrderedBelow(heap', 1)
            && Contents(heap', index') == Contents(heap, index) - {heap[1].value.value}
  {
    var heap', v, l := RootReplaced(heap, size), heap[1].value.value, heap[size].value.value;
    assert At(heap, index, 1) && At(heap, index, size);
    forall p {:trigger At(heap', index', p)} | 1 <= p <= size - 1 ensures At(heap', index', p) {
      assert At(heap, index, p);
    }
    forall p {:trigger LinkOk(heap', p)} | 2 <= p < |heap'| && p / 2 != 1 ensures LinkOk(heap', p) {
      Half(p);
      assert LinkOk(heap, p);
    }
    RemovedContents(heap, index, size, heap', index', v, l);
  }

  lemma RemovedContents(heap: Heap, index: seq<Cell<int>>, size: nat, heap': Heap, index': seq<Cell<int>>, v: int,
                        l: int)
    requires Indexed(heap, index, size) && size >= 1 && heap' == RootReplaced(heap, size)
    requires At(heap, index, 1) && At(heap, index, size) && v == heap[1].value.value && l == heap[size].value.value
    requires index' == if size == 1 then index[v := Empty] else index[v := Empty][l := Full(1)]
    ensures Contents(heap', index') == Contents(heap, index) - {v}
  {
    forall x | 0 <= x < |index| ensures index'[x].Full? <==> index[x].Full? && x != v
      ensures index'[x].Full? ==> PrioAt(heap', index'[x].value) == PrioAt(heap, index[x].value)
    {
    }
    assert Contents(heap', index').Keys == Contents(heap, index).Keys - {v};
  }

  lemma OrderedHasNoGap(heap: Heap, size: nat, n: nat, c: int)
    requires Filled(heap, size, n) && Ordered(heap)
    ensures OrderedBut(heap, c) && OrderedBelow(heap, c)
  {
    forall p {:trigger GrandOk(heap, p)} | 2 <= c && 2 <= p < |heap| && p / 2 == c ensures GrandOk(heap, p) {
      Half(p);
      assert LinkOk(heap, p) && LinkOk(heap, c);
    }
  }

  lemma EmptyIsOrdered(heap: Heap, n: nat)
    requires Filled(heap, 0, n)
    ensures Ordered(heap)
  {
  }

  // ----- The class -----

  /** An access that leaves the memory alone if the index is out of range. */
  function Store<T>(ram: seq<Cell<T>>, index: int, value: T, write: bool, newEmpty: bool := false): seq<Cell<T>> {
    Access(ram, index, value, write && 0 <= index < |ram|, newEmpty)
  }

  function CellAt(heap: Heap, p: int): Cell<Entry> {
    if 0 <= p < |heap| then heap[p] else Empty
  }

  /** `sound` says that the queue is used as intended. Without it the sizes stay, and that is all that is promised. */
  class HeapQ {
    const maxSize: nat
    const levels: nat
    var heap: Heap
    var valueIndex: seq<Cell<int>>
    var size: nat

    ghost predicate Sized()
      reads this
    {
      levels >= 1 && |heap| == Pow2(levels) >= 2 && |valueIndex| == maxSize >= 1
    }

    ghost predicate Shape()
      reads this
    {
      Sized() && Filled(heap, size, maxSize)
    }

    ghost predicate Valid()
      reads this
    {
      Shape() && Indexed(heap, valueIndex, size) && Ordered(heap)
    }

    /** Once emptied and popped again: nothing in the heap, and at most a stale index to the root. */
    ghost predicate Drained()
      reads this
    {
      Shape() && size == 0
      && forall v {:trigger valueIndex[v]} :: 0 <= v < |valueIndex| && valueIndex[v].Full? ==> valueIndex[v].value == 1
    }

    ghost function Queue(): map<int, int>
      reads this
    {
      Contents(heap, valueIndex)
    }

    constructor (maxSize: nat, levels: nat)
      requires levels >= 1 && maxSize >= 1
      ensures Valid() && Drained() && Queue() == map[] && this.maxSize == maxSize && this.levels == levels && size == 0
    {
      this.maxSize := maxSize;
      this.levels := levels;
      heap := seq(Pow2(levels), _ => Empty);
      valueIndex := seq(maxSize, _ => Empty);
      size := 0;
    }

    /** The body of both loops: parent and child are exchanged if they are in the wrong order. */
    method Exchange(parentpos: int, childpos: int, ghost sound: bool)
      requires Sized() && (sound ==> Shape() && parentpos == childpos / 2 && 0 <= childpos < |heap|)
      modifies `heap, `valueIndex
      ensures Sized() && (sound ==> Shape())
      ensures sound && childpos == 0 ==> heap == old(heap) && valueIndex == old(valueIndex)
      ensures sound && childpos > 0 ==> IsExchange(old(heap), old(valueIndex), heap, valueIndex, size, childpos)
    {
      if sound && childpos > 0 { ExchangeKeeps(heap, valueIndex, size, childpos); }
      var parent, child := CellAt(heap, parentpos), CellAt(heap, childpos);
      var swap := Greater(parent, child);
      var newParent, newChild := if swap then child else parent, if swap then parent else child;
      heap := if 0 <= childpos < |heap| then heap[childpos := newChild] else heap;
      heap := if 0 <= parentpos < |heap| then heap[parentpos := newParent] else heap;
      valueIndex := Store(valueIndex, ValueOf(newParent), parentpos, swap);
      valueIndex := Store(valueIndex, ValueOf(newChild), childpos, swap);
    }

    /** The leftmost position of the lowest level below `start`. */
    method LeftmostDescendant(start: int, ghost sound: bool) returns (childpos: int, ghost k: nat)
      requires levels >= 1 && (sound ==> 0 <= start < Pow2(levels))
      ensures start == 0 ==> childpos == 0 && k == 0
      ensures sound && start > 0 ==> childpos == Lift(start, k) && Pow2(levels - 1) <= childpos < Pow2(levels)
    {
      var seen, shift := 0, 0;
      k := 0;
      for i := 0 to levels
        invariant start == 0 ==> seen == shift == k == 0
        invariant sound ==>
          if seen == 0 then shift == 0 && k == 0 && start < Pow2(levels - i)
          else seen == 1 && k < levels && shift == Pow2(k) && Pow2(levels - 1 - k) <= start < Pow2(levels - k)
      {
        if sound && seen == 0 { BitTest(start, Pow2(levels - 1 - i)); }
        var bit := start / Pow2(levels - 1 - i) % 2;
        var or := if seen == 1 || bit == 1 then 1 else 0;
        if or > seen { k := i; }
        TimesBit(or - seen, Pow2(i));
        shift := shift + (or - seen) * Pow2(i);
        seen := or;
      }
      childpos := start * shift;
      if sound && seen == 1 {
        Scale(start, levels, k);
        LiftIsScale(start, k);
      }
    }

    /** bubble_up: from the lowest level through `start` to the root. */
    method BubbleUp(start: int, ghost sound: bool)
      requires Sized()
      requires sound ==> Shape() && 0 <= start < |heap| && OrderedBut(heap, start) && (start == 0 ==> Ordered(heap))
      modifies `heap, `valueIndex
      ensures Sized() && (sound ==> Shape() && Ordered(heap))
      ensures sound && Indexed(old(heap), old(valueIndex), size) ==>
        Indexed(heap, valueIndex, size) && Contents(heap, valueIndex) == old(Contents(heap, valueIndex))
      ensures sound && old(Ordered(heap)) ==> heap == old(heap) && valueIndex == old(valueIndex)
    {
      hide Indexed, Contents;
      var childpos;
      ghost var k: nat;
      childpos, k := LeftmostDescendant(start, sound);
      for i := 0 to levels - 1
        invariant Sized()
        invariant sound ==> Shape() && 0 <= childpos < |heap|
        invariant sound ==> if start == 0 then childpos == 0 else Pow2(levels - 1 - i) <= childpos < Pow2(levels - i)
        invariant sound && k > 0 ==> childpos == Lift(start, k)
        invariant sound && start == 0 ==> k == 0 && Ordered(heap)
        invariant sound && start > 0 ==> OrderedBut(heap, if k > 0 then start else childpos)
        invariant sound && Indexed(old(heap), old(valueIndex), size) ==>
          Indexed(heap, valueIndex, size) && Contents(heap, valueIndex) == old(Contents(heap, valueIndex))
        invariant sound && old(Ordered(heap)) ==> heap == old(heap) && valueIndex == old(valueIndex)
      {
        var parentpos := childpos / 2;
        if sound && start > 0 {
          ghost var hole := if k > 0 then start else childpos;
          if k > 0 { Above(start, k); }
          assert Pow2(levels - 1 - i) == 2 * Pow2(levels - 2 - i);
          Rise(heap, size, maxSize, hole, childpos);
        }
        Exchange(parentpos, childpos, sound);
        childpos := parentpos;
        k := if k > 0 then k - 1 else 0;
      }
      if sound && k > 0 { Above(start, k); }
    }

    /** _update: a new value is appended, a known one gets the new priority in place. */
    method Update(value: int, prio: int, forReal: bool, ghost sound: bool := true)
      requires Sized() && (sound ==> 0 <= value < maxSize && (Valid() || (Drained() && !forReal)))
      requires sound && forReal && value !in Queue() ==> size + 1 < |heap|
      requires sound && forReal && value in Queue() ==> prio <= Queue()[value]
      modifies this
      ensures Sized()
      ensures sound && old(Valid()) ==>
        Valid() && Queue() == if forReal then old(Queue())[value := prio] else old(Queue())
      ensures sound && old(Drained()) && !forReal ==> Drained()
      ensures sound ==> size == old(size) + if forReal && value !in old(Queue()) then 1 else 0
    {
      var index := Place(value, prio, forReal, sound);
      BubbleUp(index, sound);
    }

    /** The first half of _update: the entry is written to its position, new or old. */
    method Place(value: int, prio: int, forReal: bool, ghost sound: bool) returns (index: int)
      requires Sized() && (sound ==> 0 <= value < maxSize && (Valid() || (Drained() && !forReal)))
      requires sound && forReal && value !in Queue() ==> size + 1 < |heap|
      requires sound && forReal && value in Queue() ==> prio <= Queue()[value]
      modifies this
      ensures Sized()
      ensures sound ==> Shape() && 0 <= index < |heap| && OrderedBut(heap, index) && (index == 0 ==> Ordered(heap))
      ensures sound && !forReal ==> heap == old(heap) && valueIndex == old(valueIndex) && Ordered(heap)
      ensures sound && forReal ==>
        Indexed(heap, valueIndex, size) && Contents(heap, valueIndex) == old(Queue())[value := prio]
      ensures sound ==> size == old(size) + if forReal && value !in old(Queue()) then 1 else 0
    {
      hide Contents, OrderedBut, Ordered, PrioAt;
      var found, notFound := Get(valueIndex, value, 0), IsEmpty(valueIndex, value);
      if sound { ContentsAt(heap, valueIndex, value); }
      if sound && size == 0 { EmptyIsOrdered(heap, maxSize); }
      if sound && forReal {
        if notFound {
          Appended(heap, valueIndex, size, value, prio);
        } else {
          Decreased(heap, valueIndex, size, value, prio);
        }
      }
      size := size + if notFound && forReal then 1 else 0;
      index := if notFound then size else found;
      if sound && !forReal { OrderedHasNoGap(heap, size, maxSize, index); }
      valueIndex := Store(valueIndex, value, size, notFound && forReal);
      heap := Store(heap, index, Entry(prio, value), forReal);
    }

    /** The loop of _pop: the entry at the root sinks along the smaller children. */
    method SiftDown(ghost sound: bool)
      requires Sized() && (sound ==> Shape() && OrderedBelow(heap, 1))
      modifies `heap, `valueIndex
      ensures Sized() && (sound ==> Shape() && Ordered(heap))
      ensures sound && Indexed(old(heap), old(valueIndex), size) ==>
        Indexed(heap, valueIndex, size) && Contents(heap, valueIndex) == old(Contents(heap, valueIndex))
      ensures sound && old(Ordered(heap)) ==> heap == old(heap) && valueIndex == old(valueIndex)
    {
      hide Indexed, Contents;
      var parentpos := 1;
      for i := 0 to levels - 1
        invariant Sized() && Pow2(i) <= parentpos < Pow2(i + 1)
        invariant sound ==> Shape() && OrderedBelow(heap, parentpos)
        invariant sound && Indexed(old(heap), old(valueIndex), size) ==>
          Indexed(heap, valueIndex, size) && Contents(heap, valueIndex) == old(Contents(heap, valueIndex))
        invariant sound && old(Ordered(heap)) ==> heap == old(heap) && valueIndex == old(valueIndex)
      {
        Pow2Grows(i + 2, levels);
        var childpos := 2 * parentpos;
        var left, right := heap[childpos], heap[childpos + 1];
        var goRight := Greater(left, right);
        var otherchildpos := if goRight then childpos else childpos + 1;
        childpos := if goRight then childpos + 1 else childpos;
        if sound {
          SiftStep(heap, size, maxSize, parentpos, childpos, otherchildpos);
          if Ordered(heap) { NothingToMove(heap, childpos); }
          assert Ordered(heap) ==> LinkOk(heap, childpos);
        }
        Exchange(parentpos, childpos, sound);
        parentpos := childpos;
      }
      if sound { BottomIsOrdered(heap, parentpos); }
    }

    /** The last entry takes the place of the root; for an empty heap and without forReal nothing moves. */
    method TakeRoot(forReal: bool, ghost sound: bool) returns (value: int)
      requires Sized() && (sound ==> Valid() || Drained())
      modifies `heap, `valueIndex, `size
      ensures Sized() && value == ValueOf(old(heap)[1])
      ensures sound ==>
        Shape() && OrderedBelow(heap, 1) && size == old(size) - if forReal && old(size) > 0 then 1 else 0
      ensures sound && old(Valid()) && old(size) > 0 ==>
        && Indexed(heap, valueIndex, size)
        && Contents(heap, valueIndex) == (if forReal then old(Queue()) - {value} else old(Queue()))
      ensures sound && (old(size) == 0 || !forReal) ==> Ordered(heap)
      ensures sound && old(size) == 0 ==> value == 0 && Drained()
      ensures !forReal ==> heap == old(heap) && valueIndex == old(valueIndex) && size == old(size)
    {
      var popForReal := forReal && size != 0;
      var entry := heap[1];
      ghost var size0 := size;
      if sound {
        if size > 0 {
          assert Valid();
          assert At(heap, valueIndex, 1) && At(heap, valueIndex, size);
        } else {
          EmptyIsOrdered(heap, maxSize);
        }
        OrderedHasNoGap(heap, size, maxSize, 1);
      }
      valueIndex := Store(valueIndex, ValueOf(entry), 0, forReal, true);
      var last := CellAt(heap, size);
      heap := if popForReal then heap[1 := last] else heap;
      valueIndex := Store(valueIndex, ValueOf(last), 1, forReal && size != 1);
      heap := if forReal && size < |heap| then heap[size := Empty] else heap;
      size := size - if popForReal then 1 else 0;
      if sound && popForReal {
        Removed(old(heap), old(valueIndex), size0, valueIndex);
      }
      value := ValueOf(entry);
    }

    /** _pop: the value with the least priority, removed if asked for. On an empty queue it returns 0 and the queue
        stays empty. */
    method Pop(forReal: bool, ghost sound: bool := true) returns (value: int)
      requires Sized() && (sound ==> Valid() || Drained())
      modifies `heap, `valueIndex, `size
      ensures Sized()
      ensures sound && old(Valid()) && old(size) > 0 ==>
        && Valid() && value in old(Queue())
        && (forall v :: v in old(Queue()) ==> old(Queue())[value] <= old(Queue())[v])
        && Queue() == (if forReal then old(Queue()) - {value} else old(Queue()))
        && size == old(size) - if forReal then 1 else 0
      ensures sound && old(size) == 0 ==> value == 0 && Drained()
      ensures sound && !forReal ==> heap == old(heap) && valueIndex == old(valueIndex) && size == old(size)
    {
      hide OrderedBelow, Contents;
      if sound && size > 0 {
        assert Valid();
        RootIsMinimum(heap, valueIndex, size);
      }
      value := TakeRoot(forReal, sound);
      SiftDown(sound);
    }
  }
}
