/** Straight-line programs over virtual registers, and what it means to rename them to locations. */
module VirtualRegisters {
  import opened Counting

  /** A block of `size` consecutive virtual registers of one type; `vector` tells whether its elements
      are also registers of their own. */
  datatype Base = Base(regType: nat, size: nat, vector: bool)

  /** A register operand: `length` elements of a base from `offset` on. */
  datatype Reg = Reg(base: nat, offset: nat, length: nat)

  /** An element of a base, or a location of a register file. */
  type Cell = (nat, nat)

  /** `run` gives the k-th element written from all elements read. */
  datatype Op = Op(defs: seq<Reg>, uses: seq<Reg>, vec: bool, run: (seq<int>, nat) -> int)

  function Cells(r: Reg): (c: seq<Cell>)
    ensures |c| == r.length
  {
    seq(r.length, k requires 0 <= k < r.length => (r.base, r.offset + k))
  }

  function AllCells(regs: seq<Reg>): seq<Cell> {
    if regs == [] then [] else AllCells(regs[..|regs| - 1]) + Cells(regs[|regs| - 1])
  }

  ghost function DefCells(op: Op): seq<Cell> {
    AllCells(op.defs)
  }

  ghost function UseCells(op: Op): seq<Cell> {
    AllCells(op.uses)
  }

  ghost function CellSet(c: seq<Cell>): set<Cell> {
    set x | x in c
  }

  // ----- Well-formed programs -----

  ghost predicate InBase(bases: seq<Base>, r: Reg) {
    r.base < |bases| && r.length >= 1 && r.offset + r.length <= bases[r.base].size
  }

  ghost predicate WellFormed(bases: seq<Base>, prog: seq<Op>) {
    forall i, r :: 0 <= i < |prog| && (r in prog[i].defs || r in prog[i].uses) ==> InBase(bases, r)
  }

  /** Elements written by the instructions before i. */
  ghost function DefinedBefore(prog: seq<Op>, i: nat): set<Cell>
    requires i <= |prog|
  {
    if i == 0 then {} else DefinedBefore(prog, i - 1) + CellSet(DefCells(prog[i - 1]))
  }

  /** Elements written by the instructions from i on. */
  ghost function DefinedFrom(prog: seq<Op>, i: nat): set<Cell>
    requires i <= |prog|
    decreases |prog| - i
  {
    if i == |prog| then {} else DefinedFrom(prog, i + 1) + CellSet(DefCells(prog[i]))
  }

  ghost function UsedFrom(prog: seq<Op>, i: nat): set<Cell>
    requires i <= |prog|
    decreases |prog| - i
  {
    if i == |prog| then {} else UsedFrom(prog, i + 1) + CellSet(UseCells(prog[i]))
  }

  /** Every element is written at most once. */
  ghost predicate SingleDefinition(prog: seq<Op>) {
    forall i: nat :: i < |prog| ==> WritesFresh(prog, i)
  }

  ghost predicate WritesFresh(prog: seq<Op>, i: nat)
    requires i < |prog|
  {
    Distinct(DefCells(prog[i])) && CellSet(DefCells(prog[i])) !! DefinedFrom(prog, i + 1)
  }

  /** Every element read was written by an earlier instruction. */
  ghost predicate DefinedBeforeUse(prog: seq<Op>) {
    forall i: nat :: i < |prog| ==> ReadsDefined(prog, i)
  }

  ghost predicate ReadsDefined(prog: seq<Op>, i: nat)
    requires i < |prog|
  {
    CellSet(UseCells(prog[i])) <= DefinedBefore(prog, i)
  }

  lemma {:induction false} EarlierIsNotLater(prog: seq<Op>, i: nat, j: nat)
    requires SingleDefinition(prog) && i <= j <= |prog|
    ensures DefinedBefore(prog, i) !! DefinedFrom(prog, j)
    decreases i
  {
    if i > 0 {
      EarlierIsNotLater(prog, i - 1, j);
      LaterIsLess(prog, i, j);
      assert WritesFresh(prog, i - 1);
    }
  }

  lemma {:induction false} LaterIsLess(prog: seq<Op>, i: nat, j: nat)
    requires i <= j <= |prog|
    ensures DefinedFrom(prog, j) <= DefinedFrom(prog, i)
    decreases j
  {
    if i < j {
      LaterIsLess(prog, i, j - 1);
    }
  }

  // ----- Execution -----

  ghost function Load(s: map<Cell, int>, cells: seq<Cell>): (v: seq<int>)
    ensures |v| == |cells|
  {
    seq(|cells|, k requires 0 <= k < |cells| => if cells[k] in s then s[cells[k]] else 0)
  }

  ghost function Save(s: map<Cell, int>, cells: seq<Cell>, v: nat -> int): map<Cell, int> {
    if cells == [] then s else
      var n := |cells| - 1;
      Save(s, cells[..n], v)[cells[n] := v(n)]
  }

  ghost function Renamed(loc: Cell -> Cell, cells: seq<Cell>): (r: seq<Cell>)
    ensures |r| == |cells|
  {
    seq(|cells|, k requires 0 <= k < |cells| => loc(cells[k]))
  }

  ghost function Step(op: Op, loc: Cell -> Cell, s: map<Cell, int>): map<Cell, int> {
    var inputs := Load(s, Renamed(loc, UseCells(op)));
    Save(s, Renamed(loc, DefCells(op)), (k: nat) => op.run(inputs, k))
  }

  /** The state before instruction i, with every element kept at its location. */
  ghost function Before(prog: seq<Op>, loc: Cell -> Cell, i: nat): map<Cell, int>
    requires i <= |prog|
  {
    if i == 0 then map[] else Step(prog[i - 1], loc, Before(prog, loc, i - 1))
  }

  /** What instruction i reads. */
  ghost function InputsAt(prog: seq<Op>, loc: Cell -> Cell, i: nat): seq<int>
    requires i < |prog|
  {
    Load(Before(prog, loc, i), Renamed(loc, UseCells(prog[i])))
  }

  ghost function Itself(): Cell -> Cell {
    (c: Cell) => c
  }

  // ----- When a renaming is harmless -----

  /** Elements that are still to be read are not at a location instruction i writes something else to. */
  ghost predicate NoClobber(prog: seq<Op>, loc: Cell -> Cell, i: nat)
    requires i < |prog|
  {
    && (forall c, d :: c in DefinedBefore(prog, i) && c in UsedFrom(prog, i + 1) && d in DefCells(prog[i]) ==>
        loc(c) != loc(d))
    && (forall c, d :: c in DefCells(prog[i]) && d in DefCells(prog[i]) && loc(c) == loc(d) ==> c == d)
  }

  /** Elements written and still to be read have the same value in both states. */
  ghost predicate Agree(prog: seq<Op>, loc: Cell -> Cell, i: nat, s: map<Cell, int>, t: map<Cell, int>)
    requires i <= |prog|
  {
    forall c :: c in DefinedBefore(prog, i) && c in UsedFrom(prog, i) ==> c in s && loc(c) in t && s[c] == t[loc(c)]
  }

  lemma {:induction false} SaveFrame(s: map<Cell, int>, cells: seq<Cell>, v: nat -> int, c: Cell)
    requires c !in cells
    ensures c in Save(s, cells, v) <==> c in s
    ensures c in s ==> Save(s, cells, v)[c] == s[c]
  {
    if cells != [] {
      SaveFrame(s, cells[..|cells| - 1], v, c);
    }
  }

  lemma {:induction false} SaveAt(s: map<Cell, int>, cells: seq<Cell>, v: nat -> int, k: nat)
    requires k < |cells| && Distinct(cells)
    ensures cells[k] in Save(s, cells, v) && Save(s, cells, v)[cells[k]] == v(k)
    decreases |cells|
  {
    if k < |cells| - 1 {
      SaveAt(s, cells[..|cells| - 1], v, k);
    }
  }

  lemma RenamedSelf(cells: seq<Cell>)
    ensures Renamed(Itself(), cells) == cells
  {
  }

  lemma SameLoad(prog: seq<Op>, loc: Cell -> Cell, i: nat, s: map<Cell, int>, t: map<Cell, int>)
    requires i < |prog| && Agree(prog, loc, i, s, t) && ReadsDefined(prog, i)
    ensures Load(s, UseCells(prog[i])) == Load(t, Renamed(loc, UseCells(prog[i])))
  {
    var uses := UseCells(prog[i]);
    forall k | 0 <= k < |uses|
      ensures Load(s, uses)[k] == Load(t, Renamed(loc, uses))[k]
    {
      assert uses[k] in CellSet(uses) && uses[k] in UsedFrom(prog, i);
    }
  }

  lemma StepAgrees(prog: seq<Op>, loc: Cell -> Cell, i: nat, s: map<Cell, int>, t: map<Cell, int>)
    requires i < |prog| && Agree(prog, loc, i, s, t) && NoClobber(prog, loc, i)
    requires ReadsDefined(prog, i) && WritesFresh(prog, i)
    ensures Agree(prog, loc, i + 1, Step(prog[i], Itself(), s), Step(prog[i], loc, t))
  {
    var op := prog[i];
    SameLoad(prog, loc, i, s, t);
    RenamedSelf(UseCells(op));
    RenamedSelf(DefCells(op));
    var inputs := Load(s, UseCells(op));
    var v := (k: nat) => op.run(inputs, k);
    var defs, defs' := DefCells(op), Renamed(loc, DefCells(op));
    forall k, l | 0 <= k < l < |defs'| ensures defs'[k] != defs'[l] {
      assert defs[k] in defs && defs[l] in defs && defs[k] != defs[l];
    }
    var s', t' := Save(s, defs, v), Save(t, defs', v);
    StepIsSave(op, Itself(), s, inputs, v);
    StepIsSave(op, loc, t, inputs, v);
    forall c | c in DefinedBefore(prog, i + 1) && c in UsedFrom(prog, i + 1)
      ensures c in s' && loc(c) in t' && s'[c] == t'[loc(c)]
    {
      if c in defs {
        var k :| 0 <= k < |defs| && defs[k] == c;
        SaveAt(s, defs, v, k);
        SaveAt(t, defs', v, k);
      } else {
        assert c in DefinedBefore(prog, i) && c in UsedFrom(prog, i);
        forall k | 0 <= k < |defs'| ensures defs'[k] != loc(c) {
          assert defs[k] in defs;
        }
        SaveFrame(s, defs, v, c);
        SaveFrame(t, defs', v, loc(c));
      }
    }
  }

  lemma {:induction false} SameSave(s: map<Cell, int>, cells: seq<Cell>, v: nat -> int, w: nat -> int)
    requires forall k: nat :: k < |cells| ==> v(k) == w(k)
    ensures Save(s, cells, v) == Save(s, cells, w)
  {
    if cells != [] {
      SameSave(s, cells[..|cells| - 1], v, w);
    }
  }

  lemma StepIsSave(op: Op, loc: Cell -> Cell, s: map<Cell, int>, inputs: seq<int>, v: nat -> int)
    requires inputs == Load(s, Renamed(loc, UseCells(op))) && forall k: nat :: v(k) == op.run(inputs, k)
    ensures Step(op, loc, s) == Save(s, Renamed(loc, DefCells(op)), v)
  {
    SameSave(s, Renamed(loc, DefCells(op)), (k: nat) => op.run(inputs, k), v);
  }

  /** If no location is overwritten while its element is still to be read, every instruction of the renamed
      program reads what the original reads. */
  lemma {:induction false} RenamingKeepsMeaning(prog: seq<Op>, loc: Cell -> Cell, i: nat)
    requires SingleDefinition(prog) && DefinedBeforeUse(prog) && i <= |prog|
    requires forall j: nat :: j < |prog| ==> NoClobber(prog, loc, j)
    ensures Agree(prog, loc, i, Before(prog, Itself(), i), Before(prog, loc, i))
    ensures i < |prog| ==> InputsAt(prog, loc, i) == InputsAt(prog, Itself(), i)
  {
    if i > 0 {
      RenamingKeepsMeaning(prog, loc, i - 1);
      StepAgrees(prog, loc, i - 1, Before(prog, Itself(), i - 1), Before(prog, loc, i - 1));
    }
    if i < |prog| {
      SameLoad(prog, loc, i, Before(prog, Itself(), i), Before(prog, loc, i));
      RenamedSelf(UseCells(prog[i]));
    }
  }
}
