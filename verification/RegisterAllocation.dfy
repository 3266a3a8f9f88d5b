/** Reverse linear-scan register allocation. */
module RegisterAllocation {
  import opened Counting
  import opened VirtualRegisters

  datatype AllocResult = Allocated | DoubleWrite(reg: Reg, at: nat) | RegisterOverflow(regType: nat)

  // ----- The pool of blocks -----

  ghost predicate Full(bases: seq<Base>, dealloc: set<Cell>, b: nat) {
    b < |bases| && forall k :: 0 <= k < bases[b].size ==> (b, k) in dealloc
  }

  /** Allocated and not yet completely written (the scan runs backwards). */
  ghost predicate Active(bases: seq<Base>, alloc: map<nat, nat>, dealloc: set<Cell>, b: nat) {
    b in alloc && !Full(bases, dealloc, b)
  }

  function Used(usage: map<nat, nat>, t: nat): nat {
    if t in usage then usage[t] else 0
  }

  function FreeOf(free: map<(nat, nat), seq<nat>>, t: nat, size: nat): seq<nat> {
    if (t, size) in free then free[(t, size)] else []
  }

  /** Two blocks of locations, given as type, start and size, do not overlap. */
  ghost predicate Disjoint(x: (nat, nat, nat), y: (nat, nat, nat)) {
    x.0 == y.0 ==> x.1 + x.2 <= y.1 || y.1 + y.2 <= x.1
  }

  ghost predicate Tiled(created: set<(nat, nat, nat)>, usage: map<nat, nat>) {
    && (forall x :: x in created ==> x.2 >= 1 && x.1 + x.2 <= Used(usage, x.0))
    && (forall x, y :: x in created && y in created && x != y ==> Disjoint(x, y))
  }

  ghost function BlockOf(bases: seq<Base>, alloc: map<nat, nat>, b: nat): (nat, nat, nat)
    requires b < |bases| && b in alloc
  {
    (bases[b].regType, alloc[b], bases[b].size)
  }

  /** Active bases hold different blocks. */
  ghost predicate Held(bases: seq<Base>, created: set<(nat, nat, nat)>, alloc: map<nat, nat>, dealloc: set<Cell>) {
    && (forall b: nat :: b in alloc ==> b < |bases|)
    && (forall b: nat :: Active(bases, alloc, dealloc, b) ==> BlockOf(bases, alloc, b) in created)
    && (forall b: nat, c: nat :: Active(bases, alloc, dealloc, b) && Active(bases, alloc, dealloc, c) && b != c ==>
          BlockOf(bases, alloc, b) != BlockOf(bases, alloc, c))
  }

  /** Free lists hold blocks that no active base holds. */
  ghost predicate FreeLists(bases: seq<Base>, created: set<(nat, nat, nat)>, alloc: map<nat, nat>, dealloc: set<Cell>,
                            free: map<(nat, nat), seq<nat>>)
    requires forall b: nat :: b in alloc ==> b < |bases|
  {
    && (forall t: nat, s: nat :: Distinct(FreeOf(free, t, s)))
    && (forall t: nat, s: nat, a: nat {:trigger a in FreeOf(free, t, s)} :: a in FreeOf(free, t, s) ==>
        (t, a, s) in created)
    && (forall b: nat :: Active(bases, alloc, dealloc, b) ==>
        alloc[b] !in FreeOf(free, bases[b].regType, bases[b].size))
  }

  ghost predicate Pool(bases: seq<Base>, created: set<(nat, nat, nat)>, alloc: map<nat, nat>, dealloc: set<Cell>,
                       free: map<(nat, nat), seq<nat>>, usage: map<nat, nat>) {
    Tiled(created, usage) && Held(bases, created, alloc, dealloc) && FreeLists(bases, created, alloc, dealloc, free)
  }

  lemma TakeFree(bases: seq<Base>, created: set<(nat, nat, nat)>, alloc: map<nat, nat>, dealloc: set<Cell>,
                 free: map<(nat, nat), seq<nat>>, usage: map<nat, nat>, b: nat)
    requires Pool(bases, created, alloc, dealloc, free, usage) && b < |bases| && b !in alloc
    requires FreeOf(free, bases[b].regType, bases[b].size) != []
    ensures var f := FreeOf(free, bases[b].regType, bases[b].size);
            Pool(bases, created, alloc[b := f[|f| - 1]], dealloc,
                 free[(bases[b].regType, bases[b].size) := f[..|f| - 1]], usage)
  {
    var t, s := bases[b].regType, bases[b].size;
    var f := FreeOf(free, t, s);
    var alloc', free' := alloc[b := f[|f| - 1]], free[(t, s) := f[..|f| - 1]];
    assert f[|f| - 1] in f;
    forall c: nat | Active(bases, alloc', dealloc, c) && c != b
      ensures Active(bases, alloc, dealloc, c) && BlockOf(bases, alloc', c) == BlockOf(bases, alloc, c)
      ensures BlockOf(bases, alloc, c) != (t, f[|f| - 1], s)
    {
    }
    forall t': nat, s': nat, a: nat {:trigger a in FreeOf(free', t', s')} | a in FreeOf(free', t', s')
      ensures a in FreeOf(free, t', s')
    {
      assert f == f[..|f| - 1] + [f[|f| - 1]];
    }
    forall t': nat, s': nat ensures Distinct(FreeOf(free', t', s')) {
      assert FreeOf(free', t', s') == if t' == t && s' == s then f[..|f| - 1] else FreeOf(free, t', s');
    }
    forall c: nat | Active(bases, alloc', dealloc, c)
      ensures alloc'[c] !in FreeOf(free', bases[c].regType, bases[c].size)
    {
      assert c != b ==> Active(bases, alloc, dealloc, c);
    }
  }

  /** The last free block of a kind lies among the registers used. */
  lemma FreeWithin(bases: seq<Base>, created: set<(nat, nat, nat)>, alloc: map<nat, nat>, dealloc: set<Cell>,
                   free: map<(nat, nat), seq<nat>>, usage: map<nat, nat>, t: nat, s: nat)
    requires Pool(bases, created, alloc, dealloc, free, usage) && FreeOf(free, t, s) != []
    ensures var f := FreeOf(free, t, s); f[|f| - 1] + s <= Used(usage, t)
  {
    var f := FreeOf(free, t, s);
    assert f[|f| - 1] in f;
    assert (t, f[|f| - 1], s) in created;
  }

  lemma TakeFresh(bases: seq<Base>, created: set<(nat, nat, nat)>, alloc: map<nat, nat>, dealloc: set<Cell>,
                  free: map<(nat, nat), seq<nat>>, usage: map<nat, nat>, b: nat)
    requires Pool(bases, created, alloc, dealloc, free, usage) && b < |bases| && b !in alloc && bases[b].size >= 1
    ensures var t, a := bases[b].regType, Used(usage, bases[b].regType);
            Pool(bases, created + {(t, a, bases[b].size)}, alloc[b := a], dealloc, free, usage[t := a + bases[b].size])
  {
    var t, s := bases[b].regType, bases[b].size;
    var a := Used(usage, t);
    var created', alloc', usage' := created + {(t, a, s)}, alloc[b := a], usage[t := a + s];
    forall x | x in created ensures x.1 + x.2 <= Used(usage', x.0) && Disjoint(x, (t, a, s)) && x != (t, a, s) {
    }
    forall c: nat | Active(bases, alloc', dealloc, c) && c != b
      ensures Active(bases, alloc, dealloc, c) && BlockOf(bases, alloc', c) == BlockOf(bases, alloc, c)
    {
    }
    assert a !in FreeOf(free, t, s);
  }

  /** More written elements only make bases inactive. */
  lemma Shrink(bases: seq<Base>, created: set<(nat, nat, nat)>, alloc: map<nat, nat>, dealloc: set<Cell>,
               dealloc': set<Cell>, free: map<(nat, nat), seq<nat>>, usage: map<nat, nat>)
    requires Pool(bases, created, alloc, dealloc, free, usage) && dealloc <= dealloc'
    ensures Pool(bases, created, alloc, dealloc', free, usage)
  {
    forall c: nat | Active(bases, alloc, dealloc', c) ensures Active(bases, alloc, dealloc, c) {
    }
  }

  lemma Release(bases: seq<Base>, created: set<(nat, nat, nat)>, alloc: map<nat, nat>, dealloc: set<Cell>,
                dealloc': set<Cell>, free: map<(nat, nat), seq<nat>>, usage: map<nat, nat>, b: nat)
    requires Pool(bases, created, alloc, dealloc, free, usage) && dealloc <= dealloc'
    requires Active(bases, alloc, dealloc, b) && Full(bases, dealloc', b)
    ensures var t, s := bases[b].regType, bases[b].size;
            Pool(bases, created, alloc, dealloc', free[(t, s) := FreeOf(free, t, s) + [alloc[b]]], usage)
  {
    var t, s := bases[b].regType, bases[b].size;
    var free' := free[(t, s) := FreeOf(free, t, s) + [alloc[b]]];
    forall c: nat | Active(bases, alloc, dealloc', c)
      ensures Active(bases, alloc, dealloc, c) && c != b && alloc[c] !in FreeOf(free', bases[c].regType, bases[c].size)
    {
      assert BlockOf(bases, alloc, c) != BlockOf(bases, alloc, b);
    }
    forall t': nat, s': nat, a: nat {:trigger a in FreeOf(free', t', s')} | a in FreeOf(free', t', s')
      ensures (t', a, s') in created
    {
      assert a in FreeOf(free, t', s') || (t' == t && s' == s && a == alloc[b]);
    }
    assert Held(bases, created, alloc, dealloc');
    forall t': nat, s': nat ensures Distinct(FreeOf(free', t', s')) {
      assert FreeOf(free', t', s') == FreeOf(free, t', s') + if t' == t && s' == s then [alloc[b]] else [];
    }
  }

  // ----- Live bases -----

  ghost function BasesOf(regs: seq<Reg>): set<nat> {
    set r | r in regs :: r.base
  }

  /** Bases mentioned by the instructions from i on. */
  ghost function Appearing(prog: seq<Op>, i: nat): set<nat>
    requires i <= |prog|
    decreases |prog| - i
  {
    if i == |prog| then {} else Appearing(prog, i + 1) + BasesOf(prog[i].defs) + BasesOf(prog[i].uses)
  }

  /** b is mentioned at i or later and not completely written after i. */
  ghost predicate InPeak(bases: seq<Base>, prog: seq<Op>, i: nat, b: nat)
    requires i < |prog|
  {
    b in Appearing(prog, i) && !Full(bases, DefinedFrom(prog, i + 1), b)
  }

  /** Bases live at instruction i have disjoint locations. */
  ghost predicate PeakDisjoint(bases: seq<Base>, prog: seq<Op>, alloc: map<nat, nat>, i: nat)
    requires i < |prog|
  {
    && (forall b: nat {:trigger InPeak(bases, prog, i, b)} :: InPeak(bases, prog, i, b) ==> b < |bases| && b in alloc)
    && (forall b: nat, c: nat {:trigger InPeak(bases, prog, i, b), InPeak(bases, prog, i, c)} ::
          InPeak(bases, prog, i, b) && InPeak(bases, prog, i, c) && b != c ==>
          Disjoint(BlockOf(bases, alloc, b), BlockOf(bases, alloc, c)))
  }

  ghost predicate PeaksDisjoint(bases: seq<Base>, prog: seq<Op>, alloc: map<nat, nat>, i: nat) {
    forall j: nat :: i <= j < |prog| ==> PeakDisjoint(bases, prog, alloc, j)
  }

  /** Where the elements of the bases live. */
  ghost function Location(bases: seq<Base>, alloc: map<nat, nat>): Cell -> Cell {
    (c: Cell) => if c.0 < |bases| && c.0 in alloc then (bases[c.0].regType, alloc[c.0] + c.1) else c
  }

  lemma {:induction false} CellsInBase(bases: seq<Base>, regs: seq<Reg>, c: Cell)
    requires (forall r :: r in regs ==> InBase(bases, r)) && c in AllCells(regs)
    ensures c.0 < |bases| && c.1 < bases[c.0].size && c.0 in BasesOf(regs)
  {
    var n := |regs| - 1;
    assert regs[n] in regs;
    if c in Cells(regs[n]) {
      var k :| 0 <= k < regs[n].length && Cells(regs[n])[k] == c;
    } else {
      CellsInBase(bases, regs[..n], c);
    }
  }

  lemma {:induction false} UsedAppears(bases: seq<Base>, prog: seq<Op>, i: nat, c: Cell)
    requires WellFormed(bases, prog) && i <= |prog| && c in UsedFrom(prog, i)
    ensures c.0 < |bases| && c.1 < bases[c.0].size && c.0 in Appearing(prog, i)
    decreases |prog| - i
  {
    if c in UseCells(prog[i]) {
      CellsInBase(bases, prog[i].uses, c);
    } else {
      UsedAppears(bases, prog, i + 1, c);
    }
  }

  lemma LocationsApart(bases: seq<Base>, alloc: map<nat, nat>, c: Cell, d: Cell)
    requires c.0 < |bases| && c.0 in alloc && c.1 < bases[c.0].size
    requires d.0 < |bases| && d.0 in alloc && d.1 < bases[d.0].size
    requires c != d && (c.0 != d.0 ==> Disjoint(BlockOf(bases, alloc, c.0), BlockOf(bases, alloc, d.0)))
    ensures Location(bases, alloc)(c) != Location(bases, alloc)(d)
  {
  }

  lemma DefInPeak(bases: seq<Base>, prog: seq<Op>, i: nat, d: Cell)
    requires WellFormed(bases, prog) && SingleDefinition(prog) && i < |prog| && d in DefCells(prog[i])
    ensures d.0 < |bases| && d.1 < bases[d.0].size && InPeak(bases, prog, i, d.0)
  {
    CellsInBase(bases, prog[i].defs, d);
    assert WritesFresh(prog, i);
    assert d in CellSet(DefCells(prog[i]));
  }

  lemma LiveInPeak(bases: seq<Base>, prog: seq<Op>, i: nat, c: Cell)
    requires WellFormed(bases, prog) && SingleDefinition(prog) && i < |prog|
    requires c in DefinedBefore(prog, i) && c in UsedFrom(prog, i + 1)
    ensures c.0 < |bases| && c.1 < bases[c.0].size && InPeak(bases, prog, i, c.0)
  {
    UsedAppears(bases, prog, i + 1, c);
    EarlierIsNotLater(prog, i, i + 1);
  }

  lemma PeaksPreventClobber(bases: seq<Base>, prog: seq<Op>, alloc: map<nat, nat>, i: nat)
    requires WellFormed(bases, prog) && SingleDefinition(prog) && i < |prog| && PeakDisjoint(bases, prog, alloc, i)
    ensures NoClobber(prog, Location(bases, alloc), i)
  {
    var loc := Location(bases, alloc);
    forall c, d | c in DefinedBefore(prog, i) && c in UsedFrom(prog, i + 1) && d in DefCells(prog[i])
      ensures loc(c) != loc(d)
    {
      LiveInPeak(bases, prog, i, c);
      DefInPeak(bases, prog, i, d);
      EarlierIsNotLater(prog, i, i);
      assert d in DefinedFrom(prog, i);
      LocationsApart(bases, alloc, c, d);
    }
    forall c, d | c in DefCells(prog[i]) && d in DefCells(prog[i]) && loc(c) == loc(d) ensures c == d {
      DefInPeak(bases, prog, i, c);
      DefInPeak(bases, prog, i, d);
      if c != d {
        LocationsApart(bases, alloc, c, d);
        assert false;
      }
    }
  }

  /** The meaning of an allocation: every instruction reads the same values from locations as from registers. */
  ghost predicate KeepsMeaning(bases: seq<Base>, prog: seq<Op>, alloc: map<nat, nat>) {
    forall i: nat :: i < |prog| ==> InputsAt(prog, Location(bases, alloc), i) == InputsAt(prog, Itself(), i)
  }

  lemma AllocationKeepsMeaning(bases: seq<Base>, prog: seq<Op>, alloc: map<nat, nat>)
    requires WellFormed(bases, prog) && SingleDefinition(prog) && DefinedBeforeUse(prog) &&
      PeaksDisjoint(bases, prog, alloc, 0)
    ensures KeepsMeaning(bases, prog, alloc)
  {
    forall i: nat | i < |prog| ensures NoClobber(prog, Location(bases, alloc), i) {
      PeaksPreventClobber(bases, prog, alloc, i);
    }
    forall i: nat | i < |prog| ensures InputsAt(prog, Location(bases, alloc), i) == InputsAt(prog, Itself(), i) {
      RenamingKeepsMeaning(prog, Location(bases, alloc), i);
    }
  }

  // ----- The allocator -----

  ghost predicate Extends(alloc: map<nat, nat>, alloc': map<nat, nat>) {
    forall b :: b in alloc ==> b in alloc' && alloc'[b] == alloc[b]
  }

  lemma PeaksExtend(bases: seq<Base>, prog: seq<Op>, alloc: map<nat, nat>, alloc': map<nat, nat>, i: nat)
    requires i < |prog| && PeaksDisjoint(bases, prog, alloc, i + 1) && Extends(alloc, alloc')
    requires PeakDisjoint(bases, prog, alloc', i)
    ensures PeaksDisjoint(bases, prog, alloc', i)
  {
    forall j: nat | i <= j < |prog| ensures PeakDisjoint(bases, prog, alloc', j) {
      if j > i {
        assert PeakDisjoint(bases, prog, alloc, j);
      }
    }
  }

  /** The bases of instruction i are all allocated: those live at i hold disjoint blocks. */
  lemma PeakReached(bases: seq<Base>, prog: seq<Op>, created: set<(nat, nat, nat)>, alloc: map<nat, nat>,
                    free: map<(nat, nat), seq<nat>>, usage: map<nat, nat>, i: nat)
    requires i < |prog| && Pool(bases, created, alloc, DefinedFrom(prog, i + 1), free, usage) &&
      alloc.Keys == Appearing(prog, i)
    ensures PeakDisjoint(bases, prog, alloc, i)
  {
    forall b: nat {:trigger InPeak(bases, prog, i, b)} | InPeak(bases, prog, i, b)
      ensures Active(bases, alloc, DefinedFrom(prog, i + 1), b)
    {
    }
  }

  lemma FullGrows(bases: seq<Base>, dealloc: set<Cell>, dealloc': set<Cell>)
    requires dealloc <= dealloc'
    ensures forall b: nat {:trigger Full(bases, dealloc, b)} :: Full(bases, dealloc, b) ==> Full(bases, dealloc', b)
  {
  }

  /** An element about to be written keeps its base from being done. */
  lemma NotFullYet(bases: seq<Base>, defs: seq<Reg>, dealloc: set<Cell>, k: nat)
    requires k < |defs| && InBase(bases, defs[k]) && CellSet(AllCells(defs)) !! dealloc
    ensures !Full(bases, dealloc, defs[k].base)
  {
    var c := (defs[k].base, defs[k].offset);
    CellOfDef(defs, |defs|, k, 0);
    assert defs[..|defs|] == defs && c in CellSet(AllCells(defs));
  }

  lemma {:induction false} CellOfDef(defs: seq<Reg>, n: nat, k: nat, l: nat)
    requires k < n <= |defs| && l < defs[k].length
    ensures (defs[k].base, defs[k].offset + l) in AllCells(defs[..n])
    decreases n
  {
    assert defs[..n][..n - 1] == defs[..n - 1];
    if k < n - 1 {
      CellOfDef(defs, n - 1, k, l);
    } else {
      assert Cells(defs[k])[l] == (defs[k].base, defs[k].offset + l);
    }
  }

  lemma CellsSnoc(defs: seq<Reg>, k: nat)
    requires k < |defs|
    ensures AllCells(defs[..k + 1]) == AllCells(defs[..k]) + Cells(defs[k])
  {
    assert defs[..k + 1][..k] == defs[..k];
  }

  lemma FirstCell(r: Reg)
    requires r.length >= 1
    ensures |Cells(r)| >= 1 && Cells(r)[0] == (r.base, r.offset)
  {
  }

  /** The first element of the k-th result is not among those of the results before it. */
  lemma NotBefore(defs: seq<Reg>, k: nat)
    requires k < |defs| && defs[k].length >= 1 && Distinct(AllCells(defs))
    ensures (defs[k].base, defs[k].offset) !in AllCells(defs[..k])
  {
    hide AllCells, Cells, Distinct;
    PrefixCells(defs, k + 1, |defs|);
    assert defs[..|defs|] == defs;
    CellsSnoc(defs, k);
    FirstCell(defs[k]);
    HeadNotBefore(AllCells(defs), AllCells(defs[..k]), Cells(defs[k]));
  }

  lemma HeadNotBefore(all: seq<Cell>, before: seq<Cell>, next: seq<Cell>)
    requires before + next <= all && |next| >= 1 && Distinct(all)
    ensures next[0] !in before
  {
    assert all[|before|] == next[0];
    forall i | 0 <= i < |before| ensures before[i] != next[0] {
      assert before[i] == all[i];
    }
  }

  lemma NotDoneYet(bases: seq<Base>, defs: seq<Reg>, dealloc: set<Cell>, k: nat)
    requires k < |defs| && InBase(bases, defs[k]) && CellSet(AllCells(defs)) !! dealloc && Distinct(AllCells(defs))
    ensures !Full(bases, dealloc + CellSet(AllCells(defs[..k])), defs[k].base)
  {
    var c := (defs[k].base, defs[k].offset);
    NotBefore(defs, k);
    CellOfDef(defs, |defs|, k, 0);
    assert defs[..|defs|] == defs && c in CellSet(AllCells(defs));
    assert c !in dealloc + CellSet(AllCells(defs[..k]));
  }

  lemma {:induction false} PrefixCells(defs: seq<Reg>, k: nat, n: nat)
    requires k <= n <= |defs|
    ensures AllCells(defs[..k]) <= AllCells(defs[..n])
    decreases n
  {
    if k < n {
      PrefixCells(defs, k, n - 1);
      assert defs[..n][..n - 1] == defs[..n - 1];
    }
  }

  // ----- How many registers are needed -----

  ghost predicate UnitSizes(bases: seq<Base>) {
    forall b :: 0 <= b < |bases| ==> bases[b].size == 1
  }

  /** The largest size of a base. */
  ghost function Largest(bases: seq<Base>): (m: nat)
    ensures forall b :: 0 <= b < |bases| ==> bases[b].size <= m
    ensures UnitSizes(bases) ==> m <= 1
  {
    if bases == [] then 0 else
      var n := |bases| - 1;
      assert UnitSizes(bases) ==> UnitSizes(bases[..n]);
      assert forall b :: 0 <= b < n ==> bases[b] == bases[..n][b];
      var m := Largest(bases[..n]);
      if bases[n].size > m then bases[n].size else m
  }

  /** The bases of a set that have type t and the given size. */
  ghost function OfKind(bases: seq<Base>, s: set<nat>, t: nat, size: nat): set<nat> {
    set b: nat | b in s && b < |bases| && bases[b].regType == t && bases[b].size == size
  }

  lemma OfKindAdds(bases: seq<Base>, s: set<nat>, b: nat, t: nat, size: nat)
    requires b < |bases| && b !in s
    ensures |OfKind(bases, s + {b}, t, size)| ==
            |OfKind(bases, s, t, size)| + if bases[b].regType == t && bases[b].size == size then 1 else 0
  {
    if bases[b].regType == t && bases[b].size == size {
      assert OfKind(bases, s + {b}, t, size) == OfKind(bases, s, t, size) + {b};
    } else {
      assert OfKind(bases, s + {b}, t, size) == OfKind(bases, s, t, size);
    }
  }

  lemma OfKindGrows(bases: seq<Base>, s: set<nat>, s': set<nat>, t: nat, size: nat)
    requires s <= s'
    ensures |OfKind(bases, s, t, size)| <= |OfKind(bases, s', t, size)|
  {
    SubsetCardinality(OfKind(bases, s, t, size), OfKind(bases, s', t, size));
  }

  ghost function ActiveSet(bases: seq<Base>, alloc: map<nat, nat>, dealloc: set<Cell>): set<nat> {
    set b: nat | b in alloc && !Full(bases, dealloc, b)
  }

  /** The number of active bases of type t and the given size. */
  ghost function ActiveCount(bases: seq<Base>, alloc: map<nat, nat>, dealloc: set<Cell>, t: nat, size: nat): nat {
    |OfKind(bases, ActiveSet(bases, alloc, dealloc), t, size)|
  }

  /** The bases live at instruction i. */
  ghost function PeakSet(bases: seq<Base>, prog: seq<Op>, i: nat): set<nat>
    requires i < |prog|
  {
    set b: nat | b in Appearing(prog, i) && InPeak(bases, prog, i, b)
  }

  /** How many bases of type t and the given size are live at instruction i. */
  ghost function LiveCount(bases: seq<Base>, prog: seq<Op>, i: nat, t: nat, size: nat): nat
    requires i < |prog|
  {
    |OfKind(bases, PeakSet(bases, prog, i), t, size)|
  }

  function Max(a: nat, b: nat): nat {
    if a >= b then a else b
  }

  /** The greatest number of them that are live at one instruction from i on. */
  ghost function PeakCount(bases: seq<Base>, prog: seq<Op>, i: nat, t: nat, size: nat): nat
    requires i <= |prog|
    decreases |prog| - i
  {
    if i == |prog| then 0 else Max(PeakCount(bases, prog, i + 1, t, size), LiveCount(bases, prog, i, t, size))
  }

  /** It is reached and never exceeded. */
  lemma {:induction false} PeakCountIsGreatest(bases: seq<Base>, prog: seq<Op>, i: nat, t: nat, size: nat)
    requires i <= |prog|
    ensures forall j: nat {:trigger LiveCount(bases, prog, j, t, size)} :: i <= j < |prog| ==>
              LiveCount(bases, prog, j, t, size) <= PeakCount(bases, prog, i, t, size)
    ensures PeakCount(bases, prog, i, t, size) > 0 ==>
              exists j: nat :: i <= j < |prog| && LiveCount(bases, prog, j, t, size) ==
                PeakCount(bases, prog, i, t, size)
    decreases |prog| - i
  {
    if i < |prog| {
      PeakCountIsGreatest(bases, prog, i + 1, t, size);
      assert LiveCount(bases, prog, i, t, size) <= PeakCount(bases, prog, i, t, size);
    }
  }

  lemma {:induction false} PeakCountGrows(bases: seq<Base>, prog: seq<Op>, i: nat, j: nat, t: nat, size: nat)
    requires i <= j <= |prog|
    ensures PeakCount(bases, prog, j, t, size) <= PeakCount(bases, prog, i, t, size)
    decreases j - i
  {
    hide LiveCount;
    if i < j {
      PeakCountGrows(bases, prog, i + 1, j, t, size);
    }
  }

  /** The registers of type t in bases of sizes below m: each size times its peak. */
  ghost function PeakSum(bases: seq<Base>, prog: seq<Op>, i: nat, t: nat, m: nat): nat
    requires i <= |prog|
  {
    if m == 0 then 0 else PeakSum(bases, prog, i, t, m - 1) + (m - 1) * PeakCount(bases, prog, i, t, m - 1)
  }

  /** The registers of type t that the scan takes: blocks are reused within their size, and only there. */
  ghost function PeakUse(bases: seq<Base>, prog: seq<Op>, i: nat, t: nat): nat
    requires i <= |prog|
  {
    PeakSum(bases, prog, i, t, Largest(bases) + 1)
  }

  lemma {:induction false} PeakSumGrows(bases: seq<Base>, prog: seq<Op>, i: nat, j: nat, t: nat, m: nat)
    requires i <= j <= |prog|
    ensures PeakSum(bases, prog, j, t, m) <= PeakSum(bases, prog, i, t, m)
  {
    hide PeakCount;
    if m > 0 {
      PeakSumGrows(bases, prog, i, j, t, m - 1);
      PeakCountGrows(bases, prog, i, j, t, m - 1);
      MulGrows(m - 1, PeakCount(bases, prog, j, t, m - 1), PeakCount(bases, prog, i, t, m - 1));
    }
  }

  lemma MulGrows(a: nat, b: nat, c: nat)
    requires b <= c
    ensures a * b <= a * c
    ensures b < c ==> a * b + a <= a * c
    decreases c
  {
    if b < c {
      MulGrows(a, b, c - 1);
      assert a * c == a * (c - 1) + a;
    }
  }

  // ----- The blocks made so far -----

  function Made(made: map<(nat, nat), nat>, t: nat, size: nat): nat {
    if (t, size) in made then made[(t, size)] else 0
  }

  ghost function MadeSum(made: map<(nat, nat), nat>, t: nat, m: nat): nat {
    if m == 0 then 0 else MadeSum(made, t, m - 1) + (m - 1) * Made(made, t, m - 1)
  }

  /** One more block of a kind. */
  lemma {:induction false} OneMoreMade(made: map<(nat, nat), nat>, t: nat, size: nat, u: nat, m: nat)
    ensures MadeSum(made[(t, size) := Made(made, t, size) + 1], u, m) ==
            MadeSum(made, u, m) + if u == t && size < m then size else 0
  {
    if m > 0 {
      OneMoreMade(made, t, size, u, m - 1);
      var made' := made[(t, size) := Made(made, t, size) + 1];
      if u == t && m - 1 == size {
        assert size * (Made(made, t, size) + 1) == size * Made(made, t, size) + size;
      } else {
        assert Made(made', u, m - 1) == Made(made, u, m - 1);
      }
    }
  }

  lemma {:induction false} NothingMade(t: nat, m: nat)
    ensures MadeSum(map[], t, m) == 0
  {
    if m > 0 {
      NothingMade(t, m - 1);
    }
  }

  /** As many blocks of every kind have been made as were ever in use at once. */
  ghost predicate MadeForPeak(bases: seq<Base>, prog: seq<Op>, i: nat, made: map<(nat, nat), nat>)
    requires i <= |prog|
  {
    forall t: nat, size: nat {:trigger Made(made, t, size)} ::
      Made(made, t, size) == PeakCount(bases, prog, i, t, size)
  }

  lemma {:induction false} MadeIsPeak(bases: seq<Base>, prog: seq<Op>, i: nat, made: map<(nat, nat), nat>, t: nat,
                                      m: nat)
    requires i <= |prog| && MadeForPeak(bases, prog, i, made)
    ensures MadeSum(made, t, m) == PeakSum(bases, prog, i, t, m)
  {
    if m > 0 {
      MadeIsPeak(bases, prog, i, made, t, m - 1);
      assert Made(made, t, m - 1) == PeakCount(bases, prog, i, t, m - 1);
    }
  }

  /** Within an instruction: as many as before it or as are in use now. */
  ghost predicate MadeSince(bases: seq<Base>, alloc: map<nat, nat>, dealloc: set<Cell>, made0: map<(nat, nat), nat>,
                            made: map<(nat, nat), nat>) {
    forall t: nat, size: nat {:trigger Made(made, t, size)} ::
      Made(made, t, size) == Max(Made(made0, t, size), ActiveCount(bases, alloc, dealloc, t, size))
  }

  // ----- Bookkeeping -----

  /** A block of every kind is in use or free; the registers used are those of the blocks made, all allocated blocks
      lie among them, and the last of them was started below n. */
  ghost predicate Accounted(bases: seq<Base>, alloc: map<nat, nat>, dealloc: set<Cell>, free: map<(nat, nat), seq<nat>>,
                            usage: map<nat, nat>, made: map<(nat, nat), nat>, n: nat) {
    && (forall t: nat, size: nat {:trigger Made(made, t, size)} ::
          Made(made, t, size) == ActiveCount(bases, alloc, dealloc, t, size) + |FreeOf(free, t, size)|)
    && (forall t: nat {:trigger Used(usage, t)} ::
          && Used(usage, t) == MadeSum(made, t, Largest(bases) + 1)
          && (Used(usage, t) == 0 || Used(usage, t) < n + Largest(bases)))
    && (forall b: nat {:trigger Within(bases, alloc, usage, b)} :: b in alloc ==> Within(bases, alloc, usage, b))
    && (forall b: nat {:trigger Full(bases, dealloc, b)} ::
          b < |bases| && bases[b].size >= 1 && Full(bases, dealloc, b) ==> b in alloc)
  }

  /** The block of base b lies among the registers used of its type. */
  ghost predicate Within(bases: seq<Base>, alloc: map<nat, nat>, usage: map<nat, nat>, b: nat) {
    b < |bases| && b in alloc && alloc[b] + bases[b].size <= Used(usage, bases[b].regType)
  }

  lemma NothingUsed(n: nat, bases: seq<Base>)
    ensures Accounted(bases, map[], {}, map[], map[], map[], n)
  {
    forall t: nat, size: nat ensures ActiveCount(bases, map[], {}, t, size) == 0 {
      assert OfKind(bases, ActiveSet(bases, map[], {}), t, size) == {};
    }
    var m := Largest(bases) + 1;
    forall t: nat ensures MadeSum(map[], t, m) == 0 {
      NothingMade(t, m);
    }
    forall b: nat {:trigger Full(bases, {}, b)} | b < |bases| && bases[b].size >= 1 ensures !Full(bases, {}, b) {
      NotFullAtFirst(bases, {}, b);
    }
  }

  lemma NotFullAtFirst(bases: seq<Base>, dealloc: set<Cell>, b: nat)
    requires b < |bases| && bases[b].size >= 1 && dealloc == {}
    ensures !Full(bases, dealloc, b)
  {
    assert (b, 0) !in dealloc;
  }

  lemma NotFullUnseen(bases: seq<Base>, alloc: map<nat, nat>, dealloc: set<Cell>, free: map<(nat, nat), seq<nat>>,
                      usage: map<nat, nat>, made: map<(nat, nat), nat>, n: nat, reg: Reg)
    requires Accounted(bases, alloc, dealloc, free, usage, made, n) && InBase(bases, reg)
    ensures reg.base in alloc || !Full(bases, dealloc, reg.base)
  {
  }

  /** Allocating base b makes it active. */
  lemma MoreActive(bases: seq<Base>, alloc: map<nat, nat>, dealloc: set<Cell>, b: nat, a: nat, t: nat, size: nat)
    requires b < |bases| && b !in alloc && !Full(bases, dealloc, b)
    ensures ActiveCount(bases, alloc[b := a], dealloc, t, size) ==
            ActiveCount(bases, alloc, dealloc, t, size) +
            if bases[b].regType == t && bases[b].size == size then 1 else 0
  {
    assert ActiveSet(bases, alloc[b := a], dealloc) == ActiveSet(bases, alloc, dealloc) + {b};
    OfKindAdds(bases, ActiveSet(bases, alloc, dealloc), b, t, size);
  }

  lemma AccountTakeFree(bases: seq<Base>, alloc: map<nat, nat>, dealloc: set<Cell>, free: map<(nat, nat), seq<nat>>,
                        usage: map<nat, nat>, made0: map<(nat, nat), nat>, made: map<(nat, nat), nat>, n: nat, b: nat)
    requires Accounted(bases, alloc, dealloc, free, usage, made, n) && MadeSince(bases, alloc, dealloc, made0, made)
    requires b < |bases| && b !in alloc && !Full(bases, dealloc, b)
    requires FreeOf(free, bases[b].regType, bases[b].size) != []
    requires var f := FreeOf(free, bases[b].regType, bases[b].size);
             f[|f| - 1] + bases[b].size <= Used(usage, bases[b].regType)
    ensures var f := FreeOf(free, bases[b].regType, bases[b].size);
            var alloc' := alloc[b := f[|f| - 1]];
            && Accounted(bases, alloc', dealloc, free[(bases[b].regType, bases[b].size) := f[..|f| - 1]], usage, made,
                         n)
            && MadeSince(bases, alloc', dealloc, made0, made)
  {
    hide ActiveCount, MadeSum, Full;
    var t, s := bases[b].regType, bases[b].size;
    var f := FreeOf(free, t, s);
    var alloc', free' := alloc[b := f[|f| - 1]], free[(t, s) := f[..|f| - 1]];
    forall u: nat, size: nat {:trigger Made(made, u, size)}
      ensures Made(made, u, size) == ActiveCount(bases, alloc', dealloc, u, size) + |FreeOf(free', u, size)|
      ensures Made(made, u, size) == Max(Made(made0, u, size), ActiveCount(bases, alloc', dealloc, u, size))
    {
      MoreActive(bases, alloc, dealloc, b, f[|f| - 1], u, size);
      assert FreeOf(free', u, size) == if u == t && size == s then f[..|f| - 1] else FreeOf(free, u, size);
    }
    forall c: nat {:trigger Within(bases, alloc', usage, c)} | c in alloc' ensures Within(bases, alloc', usage, c) {
      assert c != b ==> Within(bases, alloc, usage, c);
    }
  }

  lemma AccountTakeFresh(bases: seq<Base>, alloc: map<nat, nat>, dealloc: set<Cell>, free: map<(nat, nat), seq<nat>>,
                         usage: map<nat, nat>, made0: map<(nat, nat), nat>, made: map<(nat, nat), nat>, n: nat, b: nat)
    requires Accounted(bases, alloc, dealloc, free, usage, made, n) && MadeSince(bases, alloc, dealloc, made0, made)
    requires b < |bases| && b !in alloc && !Full(bases, dealloc, b)
    requires FreeOf(free, bases[b].regType, bases[b].size) == [] && Used(usage, bases[b].regType) < n
    ensures var t, s := bases[b].regType, bases[b].size;
            var a := Used(usage, t);
            var made' := made[(t, s) := Made(made, t, s) + 1];
            && Accounted(bases, alloc[b := a], dealloc, free, usage[t := a + s], made', n)
            && MadeSince(bases, alloc[b := a], dealloc, made0, made')
  {
    hide ActiveCount, MadeSum, Full;
    var t, s := bases[b].regType, bases[b].size;
    var a := Used(usage, t);
    var alloc', usage', made' := alloc[b := a], usage[t := a + s], made[(t, s) := Made(made, t, s) + 1];
    forall u: nat, size: nat {:trigger Made(made', u, size)}
      ensures Made(made', u, size) == ActiveCount(bases, alloc', dealloc, u, size) + |FreeOf(free, u, size)|
      ensures Made(made', u, size) == Max(Made(made0, u, size), ActiveCount(bases, alloc', dealloc, u, size))
    {
      MoreActive(bases, alloc, dealloc, b, a, u, size);
      assert Made(made', u, size) == Made(made, u, size) + if u == t && size == s then 1 else 0;
    }
    forall u: nat {:trigger Used(usage', u)}
      ensures Used(usage', u) == MadeSum(made', u, Largest(bases) + 1)
      ensures Used(usage', u) == 0 || Used(usage', u) < n + Largest(bases)
    {
      OneMoreMade(made, t, s, u, Largest(bases) + 1);
      assert Used(usage', u) == if u == t then a + s else Used(usage, u);
    }
    forall c: nat {:trigger Within(bases, alloc', usage', c)} | c in alloc' ensures Within(bases, alloc', usage', c) {
      assert c != b ==> Within(bases, alloc, usage, c);
    }
  }

  /** Writing elements of an active base that does not become complete changes nothing. */
  lemma AccountMark(bases: seq<Base>, alloc: map<nat, nat>, dealloc: set<Cell>, reg: Reg,
                    free: map<(nat, nat), seq<nat>>, usage: map<nat, nat>, made: map<(nat, nat), nat>, n: nat)
    requires Accounted(bases, alloc, dealloc, free, usage, made, n) && InBase(bases, reg) &&
      Active(bases, alloc, dealloc, reg.base)
    requires !Full(bases, dealloc + CellSet(Cells(reg)), reg.base)
    ensures Accounted(bases, alloc, dealloc + CellSet(Cells(reg)), free, usage, made, n)
  {
    OthersFull(bases, dealloc, reg);
    assert ActiveSet(bases, alloc, dealloc + CellSet(Cells(reg))) == ActiveSet(bases, alloc, dealloc);
  }

  /** When an active base becomes complete its block moves to the free list. */
  lemma AccountRelease(bases: seq<Base>, alloc: map<nat, nat>, dealloc: set<Cell>, reg: Reg,
                       free: map<(nat, nat), seq<nat>>, usage: map<nat, nat>, made: map<(nat, nat), nat>, n: nat)
    requires Accounted(bases, alloc, dealloc, free, usage, made, n) && InBase(bases, reg) &&
      Active(bases, alloc, dealloc, reg.base)
    requires Full(bases, dealloc + CellSet(Cells(reg)), reg.base)
    ensures var t, s := bases[reg.base].regType, bases[reg.base].size;
            Accounted(bases, alloc, dealloc + CellSet(Cells(reg)),
                      free[(t, s) := FreeOf(free, t, s) + [alloc[reg.base]]], usage, made, n)
  {
    OthersFull(bases, dealloc, reg);
    var b, dealloc' := reg.base, dealloc + CellSet(Cells(reg));
    var t, s := bases[b].regType, bases[b].size;
    var free' := free[(t, s) := FreeOf(free, t, s) + [alloc[b]]];
    assert ActiveSet(bases, alloc, dealloc) == ActiveSet(bases, alloc, dealloc') + {b};
    forall u: nat, size: nat {:trigger Made(made, u, size)}
      ensures Made(made, u, size) == ActiveCount(bases, alloc, dealloc', u, size) + |FreeOf(free', u, size)|
    {
      OfKindAdds(bases, ActiveSet(bases, alloc, dealloc'), b, u, size);
    }
  }

  lemma OthersFull(bases: seq<Base>, dealloc: set<Cell>, reg: Reg)
    ensures forall b: nat {:trigger Full(bases, dealloc + CellSet(Cells(reg)), b)} ::
      b != reg.base ==> (Full(bases, dealloc + CellSet(Cells(reg)), b) <==> Full(bases, dealloc, b))
  {
    forall b: nat {:trigger Full(bases, dealloc + CellSet(Cells(reg)), b)} | b != reg.base
      ensures Full(bases, dealloc + CellSet(Cells(reg)), b) <==> Full(bases, dealloc, b)
    {
      forall k: nat ensures (b, k) in dealloc + CellSet(Cells(reg)) <==> (b, k) in dealloc {
      }
    }
  }

  /** Why the allocator is stuck: base b needs a block, none is free, and the type has used up its registers. */
  ghost predicate Stuck(bases: seq<Base>, alloc: map<nat, nat>, dealloc: set<Cell>, free: map<(nat, nat), seq<nat>>,
                        usage: map<nat, nat>, n: nat, b: nat, t: nat) {
    && b < |bases| && bases[b].size >= 1 && b !in alloc && !Full(bases, dealloc, b) && bases[b].regType == t
    && FreeOf(free, t, bases[b].size) == [] && Used(usage, t) >= n
  }

  /** At instruction i no more blocks of a kind have been made than the instructions from i on need, one block fewer if
      base b of that kind is still waiting for one. */
  lemma MadeBelowPeak(bases: seq<Base>, prog: seq<Op>, i: nat, alloc: map<nat, nat>, made0: map<(nat, nat), nat>,
                      made: map<(nat, nat), nat>, b: nat, t: nat, size: nat)
    requires i < |prog| && MadeForPeak(bases, prog, i + 1, made0)
    requires MadeSince(bases, alloc, DefinedFrom(prog, i + 1), made0, made)
    requires alloc.Keys + {b} <= Appearing(prog, i) && b < |bases| && b !in alloc
    requires !Full(bases, DefinedFrom(prog, i + 1), b)
    ensures Made(made, t, size) <= PeakCount(bases, prog, i, t, size)
    ensures bases[b].regType == t && bases[b].size == size &&
            Made(made, t, size) == ActiveCount(bases, alloc, DefinedFrom(prog, i + 1), t, size) ==>
              Made(made, t, size) < PeakCount(bases, prog, i, t, size)
  {
    var active := ActiveSet(bases, alloc, DefinedFrom(prog, i + 1));
    assert Made(made0, t, size) == PeakCount(bases, prog, i + 1, t, size);
    OfKindAdds(bases, active, b, t, size);
    OfKindGrows(bases, active + {b}, PeakSet(bases, prog, i), t, size);
  }

  lemma {:induction false} MadeSumBelowPeak(bases: seq<Base>, prog: seq<Op>, i: nat, alloc: map<nat, nat>,
                                            made0: map<(nat, nat), nat>, made: map<(nat, nat), nat>, b: nat, t: nat,
                                            m: nat)
    requires i < |prog| && MadeForPeak(bases, prog, i + 1, made0)
    requires MadeSince(bases, alloc, DefinedFrom(prog, i + 1), made0, made)
    requires alloc.Keys + {b} <= Appearing(prog, i) && b < |bases| && b !in alloc && bases[b].regType == t
    requires !Full(bases, DefinedFrom(prog, i + 1), b)
    requires Made(made, t, bases[b].size) == ActiveCount(bases, alloc, DefinedFrom(prog, i + 1), t, bases[b].size)
    ensures MadeSum(made, t, m) + (if bases[b].size < m then bases[b].size else 0) <= PeakSum(bases, prog, i, t, m)
  {
    hide MadeSince, MadeForPeak, Full, PeakCount, ActiveCount, Appearing, DefinedFrom, Made, Largest;
    if m > 0 {
      MadeSumBelowPeak(bases, prog, i, alloc, made0, made, b, t, m - 1);
      MadeBelowPeak(bases, prog, i, alloc, made0, made, b, t, m - 1);
      MulGrows(m - 1, Made(made, t, m - 1), PeakCount(bases, prog, i, t, m - 1));
    }
  }

  /** An allocator that is stuck at instruction i really needs more than n registers. */
  lemma StuckNeedsMore(bases: seq<Base>, prog: seq<Op>, i: nat, alloc: map<nat, nat>, free: map<(nat, nat), seq<nat>>,
                       usage: map<nat, nat>, made0: map<(nat, nat), nat>, made: map<(nat, nat), nat>, n: nat, b: nat,
                       t: nat)
    requires i < |prog| && Accounted(bases, alloc, DefinedFrom(prog, i + 1), free, usage, made, n)
    requires MadeForPeak(bases, prog, i + 1, made0) && MadeSince(bases, alloc, DefinedFrom(prog, i + 1), made0, made)
    requires Stuck(bases, alloc, DefinedFrom(prog, i + 1), free, usage, n, b, t)
    requires alloc.Keys + {b} <= Appearing(prog, i)
    ensures PeakUse(bases, prog, i, t) > n
  {
    hide ActiveCount, MadeSum, MadeSince, MadeForPeak, PeakSum, Full, Appearing, DefinedFrom;
    assert Used(usage, t) == MadeSum(made, t, Largest(bases) + 1);
    assert Made(made, t, bases[b].size) ==
           ActiveCount(bases, alloc, DefinedFrom(prog, i + 1), t, bases[b].size) + |FreeOf(free, t, bases[b].size)|;
    MadeSumBelowPeak(bases, prog, i, alloc, made0, made, b, t, Largest(bases) + 1);
  }

  /** After all of instruction i's bases are allocated, the active bases are those live at i. */
  lemma PeakMade(bases: seq<Base>, prog: seq<Op>, i: nat, alloc: map<nat, nat>, made0: map<(nat, nat), nat>,
                 made: map<(nat, nat), nat>)
    requires i < |prog| && alloc.Keys == Appearing(prog, i) && MadeForPeak(bases, prog, i + 1, made0)
    requires MadeSince(bases, alloc, DefinedFrom(prog, i + 1), made0, made)
    ensures MadeForPeak(bases, prog, i, made)
  {
    assert PeakSet(bases, prog, i) == ActiveSet(bases, alloc, DefinedFrom(prog, i + 1));
    forall t: nat, size: nat {:trigger Made(made, t, size)}
      ensures Made(made, t, size) == PeakCount(bases, prog, i, t, size)
    {
      assert Made(made0, t, size) == PeakCount(bases, prog, i + 1, t, size);
    }
  }

  /** Before an instruction nothing has been made for it. */
  lemma SinceNow(bases: seq<Base>, alloc: map<nat, nat>, dealloc: set<Cell>, free: map<(nat, nat), seq<nat>>,
                 usage: map<nat, nat>, made: map<(nat, nat), nat>, n: nat)
    requires Accounted(bases, alloc, dealloc, free, usage, made, n)
    ensures MadeSince(bases, alloc, dealloc, made, made)
  {
  }

  /** At most n single registers of every type are live at instruction i. */
  ghost predicate FitsAt(bases: seq<Base>, prog: seq<Op>, n: nat, i: nat)
    requires i < |prog|
  {
    forall t: nat {:trigger LiveCount(bases, prog, i, t, 1)} :: LiveCount(bases, prog, i, t, 1) <= n
  }

  /** At no instruction more than n single registers of one type are live. */
  ghost predicate FitsEverywhere(bases: seq<Base>, prog: seq<Op>, n: nat) {
    forall j: nat {:trigger FitsAt(bases, prog, n, j)} :: j < |prog| ==> FitsAt(bases, prog, n, j)
  }

  lemma {:induction false} NoneOfKind(bases: seq<Base>, prog: seq<Op>, i: nat, t: nat, size: nat)
    requires i <= |prog| && forall b :: 0 <= b < |bases| ==> bases[b].size != size
    ensures PeakCount(bases, prog, i, t, size) == 0
    decreases |prog| - i
  {
    if i < |prog| {
      NoneOfKind(bases, prog, i + 1, t, size);
      assert OfKind(bases, PeakSet(bases, prog, i), t, size) == {};
    }
  }

  /** For single registers the registers used are the peak number of live ones. */
  lemma UnitPeak(bases: seq<Base>, prog: seq<Op>, t: nat)
    requires UnitSizes(bases)
    ensures PeakUse(bases, prog, 0, t) == PeakCount(bases, prog, 0, t, 1)
  {
    assert PeakSum(bases, prog, 0, t, 1) == 0;
    assert PeakSum(bases, prog, 0, t, 2) == PeakCount(bases, prog, 0, t, 1);
    if Largest(bases) == 0 {
      NoneOfKind(bases, prog, 0, t, 1);
    }
  }

  /** m single registers are enough everywhere exactly if m registers are used at most. */
  lemma UnitFits(bases: seq<Base>, prog: seq<Op>, m: nat)
    requires UnitSizes(bases)
    ensures FitsEverywhere(bases, prog, m) <==> forall t: nat :: PeakUse(bases, prog, 0, t) <= m
  {
    if FitsEverywhere(bases, prog, m) {
      forall t: nat ensures PeakUse(bases, prog, 0, t) <= m {
        UnitPeak(bases, prog, t);
        PeakCountIsGreatest(bases, prog, 0, t, 1);
        if PeakCount(bases, prog, 0, t, 1) > 0 {
          var j: nat :| j < |prog| && LiveCount(bases, prog, j, t, 1) == PeakCount(bases, prog, 0, t, 1);
          assert FitsAt(bases, prog, m, j);
        }
      }
    }
    if forall t: nat :: PeakUse(bases, prog, 0, t) <= m {
      forall j: nat, t: nat | j < |prog| ensures LiveCount(bases, prog, j, t, 1) <= m {
        UnitPeak(bases, prog, t);
        PeakCountIsGreatest(bases, prog, 0, t, 1);
      }
    }
  }

  /** What an allocation uses: exactly the peak of every type, with every block inside; and it can only have run over n
      within its last block. */
  ghost predicate UsesPeak(bases: seq<Base>, prog: seq<Op>, alloc: map<nat, nat>, usage: map<nat, nat>, n: nat) {
    && (forall t: nat {:trigger Used(usage, t)} ::
          && Used(usage, t) == PeakUse(bases, prog, 0, t)
          && (Used(usage, t) == 0 || Used(usage, t) < n + Largest(bases)))
    && (forall b: nat {:trigger Within(bases, alloc, usage, b)} :: b in alloc ==> Within(bases, alloc, usage, b))
  }

  lemma AccountedUsesPeak(bases: seq<Base>, prog: seq<Op>, alloc: map<nat, nat>, dealloc: set<Cell>,
                          free: map<(nat, nat), seq<nat>>, usage: map<nat, nat>, made: map<(nat, nat), nat>, n: nat)
    requires Accounted(bases, alloc, dealloc, free, usage, made, n) && MadeForPeak(bases, prog, 0, made)
    ensures UsesPeak(bases, prog, alloc, usage, n)
  {
    forall t: nat {:trigger Used(usage, t)} ensures Used(usage, t) == PeakUse(bases, prog, 0, t) {
      MadeIsPeak(bases, prog, 0, made, t, Largest(bases) + 1);
    }
  }

  /** For single registers: n were enough, and every location is below any number of registers that is enough. */
  lemma UnitUse(bases: seq<Base>, prog: seq<Op>, alloc: map<nat, nat>, usage: map<nat, nat>, n: nat)
    requires UnitSizes(bases) && UsesPeak(bases, prog, alloc, usage, n)
    ensures FitsEverywhere(bases, prog, n)
    ensures forall m: nat :: FitsEverywhere(bases, prog, m) ==> Below(alloc, m)
  {
    forall t: nat ensures PeakUse(bases, prog, 0, t) <= n {
      assert Used(usage, t) == PeakUse(bases, prog, 0, t);
    }
    UnitFits(bases, prog, n);
    forall m: nat | FitsEverywhere(bases, prog, m) ensures Below(alloc, m) {
      UnitFits(bases, prog, m);
      forall b | b in alloc ensures alloc[b] < m {
        assert Within(bases, alloc, usage, b);
        assert Used(usage, bases[b].regType) == PeakUse(bases, prog, 0, bases[b].regType);
      }
    }
  }

  ghost predicate Below(alloc: map<nat, nat>, m: nat) {
    forall b :: b in alloc ==> alloc[b] < m
  }

  lemma NeverFits(bases: seq<Base>, prog: seq<Op>, i: nat, n: nat, t: nat)
    requires i < |prog| && PeakUse(bases, prog, i, t) > n
    ensures PeakUse(bases, prog, 0, t) > n
    ensures UnitSizes(bases) ==> !FitsEverywhere(bases, prog, n)
  {
    PeakSumGrows(bases, prog, 0, i, t, Largest(bases) + 1);
    if UnitSizes(bases) {
      UnitFits(bases, prog, n);
    }
  }

  class StraightlineAllocator {
    const n: nat
    const bases: seq<Base>
    var alloc: map<nat, nat>
    var usage: map<nat, nat>
    var defined: set<Reg>
    var dealloc: set<Cell>
    var free: map<(nat, nat), seq<nat>>
    ghost var created: set<(nat, nat, nat)>
    ghost var made: map<(nat, nat), nat>

    ghost predicate Valid()
      reads this
    {
      && Pool(bases, created, alloc, dealloc, free, usage)
      && forall r :: r in defined ==> Full(bases, dealloc, r.base)
    }

    ghost predicate Accounts()
      reads this
    {
      Accounted(bases, alloc, dealloc, free, usage, made, n)
    }

    /** As many blocks of every kind as before the instruction, or as are in use now. */
    ghost predicate Since(made0: map<(nat, nat), nat>)
      reads this
    {
      MadeSince(bases, alloc, dealloc, made0, made)
    }

    /** The allocator could not place base b. */
    ghost predicate StuckAt(b: nat, t: nat)
      reads this
    {
      Accounts() && Stuck(bases, alloc, dealloc, free, usage, n, b, t)
    }

    constructor (n: nat, bases: seq<Base>)
      ensures Valid() && Accounts() && this.n == n && this.bases == bases
      ensures alloc == usage == map[] && dealloc == {} && made == map[]
    {
      this.n := n;
      this.bases := bases;
      alloc, usage, defined, dealloc, free := map[], map[], {}, {}, map[];
      created, made := {}, map[];
      NothingUsed(n, bases);
    }

    /** alloc_reg: a base not seen yet gets the last free block of its type and size; only if there is none it gets a
        new one, while the type has room. */
    method AllocReg(reg: Reg, ghost made0: map<(nat, nat), nat>) returns (ok: bool)
      requires Valid() && Accounts() && Since(made0) && InBase(bases, reg)
      requires reg.base in alloc || !Full(bases, dealloc, reg.base)
      modifies `alloc, `usage, `free, `created, `made
      ensures Valid() && Accounts() && Since(made0)
      ensures !ok ==> StuckAt(reg.base, bases[reg.base].regType)
      ensures var b := reg.base;
              var t, size := bases[b].regType, bases[b].size;
              var f := FreeOf(old(free), t, size);
              if b in old(alloc) then
                ok && alloc == old(alloc) && free == old(free) && usage == old(usage)
              else if f != [] then
                && ok && alloc == old(alloc)[b := f[|f| - 1]] && usage == old(usage)
                && free == old(free)[(t, size) := f[..|f| - 1]]
              else
                && ok == (Used(old(usage), t) < n) && free == old(free)
                && alloc == (if ok then old(alloc)[b := Used(old(usage), t)] else old(alloc))
                && usage == (if ok then old(usage)[t := Used(old(usage), t) + size] else old(usage))
    {
      hide Pool, Accounted, Full, MadeSince;
      var b := reg.base;
      if b in alloc {
        return true;
      }
      var t, size := bases[b].regType, bases[b].size;
      var f := FreeOf(free, t, size);
      if f != [] {
        FreeWithin(bases, created, alloc, dealloc, free, usage, t, size);
        TakeFree(bases, created, alloc, dealloc, free, usage, b);
        AccountTakeFree(bases, alloc, dealloc, free, usage, made0, made, n, b);
        alloc := alloc[b := f[|f| - 1]];
        free := free[(t, size) := f[..|f| - 1]];
      } else if Used(usage, t) < n {
        TakeFresh(bases, created, alloc, dealloc, free, usage, b);
        AccountTakeFresh(bases, alloc, dealloc, free, usage, made0, made, n, b);
        var res := Used(usage, t);
        created := created + {(t, res, size)};
        made := made[(t, size) := Made(made, t, size) + 1];
        usage := usage[t := res + size];
        alloc := alloc[b := res];
      } else {
        return false;
      }
      return true;
    }

    method AllDone(b: nat) returns (done: bool)
      requires b < |bases|
      ensures done <==> Full(bases, dealloc, b)
    {
      for k := 0 to bases[b].size
        invariant forall l :: 0 <= l < k ==> (b, l) in dealloc
      {
        if (b, k) !in dealloc {
          return false;
        }
      }
      return true;
    }

    method MarkDone(reg: Reg)
      modifies `dealloc
      ensures dealloc == old(dealloc) + CellSet(Cells(reg))
    {
      for k := 0 to reg.length
        invariant dealloc == old(dealloc) + CellSet(Cells(reg)[..k])
      {
        assert Cells(reg)[..k + 1] == Cells(reg)[..k] + [Cells(reg)[k]];
        dealloc := dealloc + {(reg.base, reg.offset + k)};
      }
      assert Cells(reg)[..reg.length] == Cells(reg);
    }

    /** dealloc_reg: the elements are done; when all of the base are, its block becomes free. */
    method DeallocReg(reg: Reg, vec: bool)
      requires Valid() && Accounts() && InBase(bases, reg) && Active(bases, alloc, dealloc, reg.base)
      modifies `dealloc, `free, `defined
      ensures Valid() && Accounts() && dealloc == old(dealloc) + CellSet(Cells(reg))
      ensures var b := reg.base;
              var kind := (bases[b].regType, bases[b].size);
              if Full(bases, dealloc, b) then
                && free == old(free)[kind := FreeOf(old(free), kind.0, kind.1) + [alloc[b]]]
                && defined == old(defined) + if vec && bases[b].vector then AllOf(b) else {reg}
              else
                free == old(free) && defined == old(defined)
    {
      hide Pool, Accounted, Full;
      ghost var before := dealloc;
      MarkDone(reg);
      Shrink(bases, created, alloc, before, dealloc, free, usage);
      FullGrows(bases, before, dealloc);
      var b := reg.base;
      var done := AllDone(b);
      if done {
        Release(bases, created, alloc, before, dealloc, free, usage, b);
        AccountRelease(bases, alloc, before, reg, free, usage, made, n);
        free := free[(bases[b].regType, bases[b].size) := FreeOf(free, bases[b].regType, bases[b].size) + [alloc[b]]];
        if vec && bases[b].vector {
          defined := defined + AllOf(b);
        } else {
          defined := defined + {reg};
        }
      } else {
        AccountMark(bases, alloc, before, reg, free, usage, made, n);
      }
    }

    /** A base as a whole, and its elements. */
    function AllOf(b: nat): (all: set<Reg>)
      requires b < |bases|
      ensures Reg(b, 0, bases[b].size) in all
      ensures forall q :: q in all ==>
        q == Reg(b, 0, bases[b].size) || (q.base == b && q.offset < bases[b].size && q.length == 1)
      ensures forall k: nat :: k < bases[b].size ==> Reg(b, k, 1) in all
    {
      {Reg(b, 0, bases[b].size)} + set k | 0 <= k < bases[b].size :: Reg(b, k, 1)
    }

    method AllocDefs(op: Op, at: nat, ghost made0: map<(nat, nat), nat>)
      returns (r: AllocResult, ghost stuck: nat)
      requires Valid() && Accounts() && Since(made0) && (forall j :: j in op.defs ==> InBase(bases, j))
      requires CellSet(DefCells(op)) !! dealloc
      modifies `alloc, `usage, `free, `created, `made
      ensures Valid() && Accounts() && Since(made0) && !r.DoubleWrite?
      ensures r.RegisterOverflow? ==>
        StuckAt(stuck, r.regType) && alloc.Keys + {stuck} <= old(alloc).Keys + BasesOf(op.defs)
      ensures r.Allocated? ==> alloc.Keys == old(alloc).Keys + BasesOf(op.defs)
      ensures Extends(old(alloc), alloc)
    {
      hide Pool, Accounted, Full, Stuck, MadeSince;
      stuck := 0;
      for k := 0 to |op.defs|
        invariant Valid() && Accounts() && Since(made0) && alloc.Keys == old(alloc).Keys + BasesOf(op.defs[..k])
        invariant Extends(old(alloc), alloc)
      {
        var j := op.defs[k];
        assert j in op.defs && op.defs[..k + 1] == op.defs[..k] + [j];
        NotFullYet(bases, op.defs, dealloc, k);
        if j.base in alloc {
          if j in defined {
            r := DoubleWrite(j, at);
            return;
          }
        } else {
          var ok := AllocReg(j, made0);
          if !ok {
            r, stuck := RegisterOverflow(bases[j.base].regType), j.base;
            return;
          }
        }
      }
      assert op.defs[..|op.defs|] == op.defs;
      r := Allocated;
    }

    method AllocUses(op: Op, ghost made0: map<(nat, nat), nat>)
      returns (r: AllocResult, ghost stuck: nat)
      requires Valid() && Accounts() && Since(made0) && (forall j :: j in op.uses ==> InBase(bases, j))
      modifies `alloc, `usage, `free, `created, `made
      ensures Valid() && Accounts() && Since(made0) && !r.DoubleWrite?
      ensures r.RegisterOverflow? ==>
        StuckAt(stuck, r.regType) && alloc.Keys + {stuck} <= old(alloc).Keys + BasesOf(op.uses)
      ensures r.Allocated? ==> alloc.Keys == old(alloc).Keys + BasesOf(op.uses)
      ensures Extends(old(alloc), alloc)
    {
      hide Pool, Accounted, Full, Stuck, MadeSince;
      stuck := 0;
      for k := 0 to |op.uses|
        invariant Valid() && Accounts() && Since(made0) && alloc.Keys == old(alloc).Keys + BasesOf(op.uses[..k])
        invariant Extends(old(alloc), alloc)
      {
        var j := op.uses[k];
        assert j in op.uses && op.uses[..k + 1] == op.uses[..k] + [j];
        NotFullUnseen(bases, alloc, dealloc, free, usage, made, n, j);
        var ok := AllocReg(j, made0);
        if !ok {
          r, stuck := RegisterOverflow(bases[j.base].regType), j.base;
          return;
        }
      }
      assert op.uses[..|op.uses|] == op.uses;
      r := Allocated;
    }

    method DeallocDefs(op: Op)
      requires Valid() && Accounts() && (forall j :: j in op.defs ==> InBase(bases, j)) &&
        BasesOf(op.defs) <= alloc.Keys
      requires Distinct(DefCells(op)) && CellSet(DefCells(op)) !! dealloc
      modifies `dealloc, `free, `defined
      ensures Valid() && Accounts() && dealloc == old(dealloc) + CellSet(DefCells(op))
    {
      hide Pool, Accounted, Full;
      for k := 0 to |op.defs|
        invariant Valid() && Accounts() && dealloc == old(dealloc) + CellSet(AllCells(op.defs[..k]))
      {
        var j := op.defs[k];
        assert j in op.defs && op.defs[..k + 1][..k] == op.defs[..k];
        NotDoneYet(bases, op.defs, old(dealloc), k);
        DeallocReg(j, op.vec);
      }
      assert op.defs[..|op.defs|] == op.defs;
    }

    /** One instruction of the scan. */
    method ProcessOp(prog: seq<Op>, i: nat) returns (r: AllocResult)
      requires i < |prog| && Valid() && Accounts() && alloc.Keys == Appearing(prog, i + 1) &&
        dealloc == DefinedFrom(prog, i + 1)
      requires WellFormed(bases, prog) && WritesFresh(prog, i) && MadeForPeak(bases, prog, i + 1, made)
      modifies this
      ensures !r.DoubleWrite? && (r.RegisterOverflow? ==> PeakUse(bases, prog, i, r.regType) > n)
      ensures r.Allocated? ==>
        Valid() && Accounts() && alloc.Keys == Appearing(prog, i) && dealloc == DefinedFrom(prog, i)
      ensures r.Allocated? ==> MadeForPeak(bases, prog, i, made)
      ensures r.Allocated? ==> PeakDisjoint(bases, prog, alloc, i)
      ensures Extends(old(alloc), alloc)
    {
      hide Pool, Accounted, Full, Stuck, MadeSince, MadeForPeak, PeakUse, PeakDisjoint;
      ghost var made0, stuck := made, 0;
      SinceNow(bases, alloc, dealloc, free, usage, made, n);
      r, stuck := AllocDefs(prog[i], i, made0);
      if !r.Allocated? {
        StuckNeedsMore(bases, prog, i, alloc, free, usage, made0, made, n, stuck, r.regType);
        return;
      }
      r, stuck := AllocUses(prog[i], made0);
      if !r.Allocated? {
        StuckNeedsMore(bases, prog, i, alloc, free, usage, made0, made, n, stuck, r.regType);
        return;
      }
      PeakReached(bases, prog, created, alloc, free, usage, i);
      PeakMade(bases, prog, i, alloc, made0, made);
      DeallocDefs(prog[i]);
    }

    /** process: the scan from the last instruction to the first. On a program that writes every register once and
        before its uses it never reports a double write, and its allocation keeps the meaning. Of every type it uses,
        for each size, as many blocks as are live at once, and it reports an overflow only if that is more than n; for
        single registers exactly then. */
    method Process(prog: seq<Op>) returns (r: AllocResult)
      requires Valid() && Accounts() && alloc == map[] && dealloc == {} && made == map[] && WellFormed(bases, prog)
      requires SingleDefinition(prog) && DefinedBeforeUse(prog)
      modifies this
      ensures !r.DoubleWrite?
      ensures r.RegisterOverflow? ==> PeakUse(bases, prog, 0, r.regType) > n
      ensures UnitSizes(bases) ==> (r.Allocated? <==> FitsEverywhere(bases, prog, n))
      ensures r.Allocated? ==> alloc.Keys == Appearing(prog, 0) && PeaksDisjoint(bases, prog, alloc, 0)
      ensures r.Allocated? ==> KeepsMeaning(bases, prog, alloc) && UsesPeak(bases, prog, alloc, usage, n)
      ensures r.Allocated? && UnitSizes(bases) ==> forall m: nat :: FitsEverywhere(bases, prog, m) ==> Below(alloc, m)
    {
      var i: nat := |prog|;
      assert PeaksDisjoint(bases, prog, alloc, |prog|) && MadeForPeak(bases, prog, |prog|, made);
      hide Pool, Accounted, PeaksDisjoint, KeepsMeaning, FitsEverywhere, PeakUse, MadeForPeak, UsesPeak, UnitSizes,
        Below;
      while i > 0
        invariant i <= |prog| && Valid() && Accounts() && PeaksDisjoint(bases, prog, alloc, i)
        invariant alloc.Keys == Appearing(prog, i) && dealloc == DefinedFrom(prog, i)
        invariant MadeForPeak(bases, prog, i, made)
      {
        i := i - 1;
        ghost var alloc0 := alloc;
        r := ProcessOp(prog, i);
        if !r.Allocated? {
          NeverFits(bases, prog, i, n, r.regType);
          return;
        }
        PeaksExtend(bases, prog, alloc0, alloc, i);
      }
      AllocationKeepsMeaning(bases, prog, alloc);
      AccountedUsesPeak(bases, prog, alloc, dealloc, free, usage, made, n);
      if UnitSizes(bases) {
        UnitUse(bases, prog, alloc, usage, n);
      }
      r := Allocated;
    }
  }

  /** The allocation of one straight-line program from scratch. */
  method Allocate(n: nat, bases: seq<Base>, prog: seq<Op>)
    returns (r: AllocResult, alloc: map<nat, nat>, usage: map<nat, nat>)
    requires WellFormed(bases, prog) && SingleDefinition(prog) && DefinedBeforeUse(prog)
    ensures !r.DoubleWrite?
    ensures r.RegisterOverflow? ==> PeakUse(bases, prog, 0, r.regType) > n
    ensures UnitSizes(bases) ==> (r.Allocated? <==> FitsEverywhere(bases, prog, n))
    ensures r.Allocated? ==> alloc.Keys == Appearing(prog, 0) && PeaksDisjoint(bases, prog, alloc, 0)
    ensures r.Allocated? ==> KeepsMeaning(bases, prog, alloc) && UsesPeak(bases, prog, alloc, usage, n)
    ensures r.Allocated? && UnitSizes(bases) ==> forall m: nat :: FitsEverywhere(bases, prog, m) ==> Below(alloc, m)
  {
    var allocator := new StraightlineAllocator(n, bases);
    r := allocator.Process(prog);
    alloc, usage := allocator.alloc, allocator.usage;
  }
}
