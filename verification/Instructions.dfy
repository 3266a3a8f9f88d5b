/** Straight-line register programs: what an instruction does, when two instructions may be
    exchanged, and which reorderings of a program keep its meaning. */
module Instructions {
  import opened Counting

  /** One line of output (or one exchange with the outside world). */
  datatype Event = Event(op: nat, inputs: seq<int>)

  /** The registers, and what was done so far on every channel. */
  datatype State = State(regs: seq<int>, logs: map<nat, seq<Event>>)

  /** Some instructions work on something whose order of use matters: the console, public files, a
      kind of preprocessing, the stack. */
  datatype Channel = Silent | On(id: nat)

  /** `run` gives the k-th result from the inputs; an instruction on a channel also sees, and extends, its log.
      The remaining fields steer the scheduler: `open` instructions may be merged when their merge ids agree. */
  datatype Instr = Instr(defs: seq<nat>, uses: seq<nat>, op: nat, run: (seq<int>, seq<Event>, nat) -> int,
                         channel: Channel, open: bool, kind: nat, mergeId: nat, weight: nat)

  // ----- Executing one instruction -----

  ghost function ReadReg(regs: seq<int>, r: nat): int {
    if r < |regs| then regs[r] else 0
  }

  ghost function Inputs(i: Instr, s: State): (v: seq<int>)
    ensures |v| == |i.uses|
  {
    seq(|i.uses|, k requires 0 <= k < |i.uses| => ReadReg(s.regs, i.uses[k]))
  }

  ghost function LogOf(s: State, c: Channel): seq<Event> {
    if c.On? && c.id in s.logs then s.logs[c.id] else []
  }

  ghost function Results(i: Instr, s: State): (v: seq<int>)
    ensures |v| == |i.defs|
  {
    seq(|i.defs|, k requires 0 <= k < |i.defs| => i.run(Inputs(i, s), LogOf(s, i.channel), k))
  }

  ghost function Store(regs: seq<int>, defs: seq<nat>, vals: seq<int>): (r: seq<int>)
    requires |defs| == |vals|
    ensures |r| == |regs|
  {
    if defs == [] then regs else
      var n := |defs| - 1;
      var r := Store(regs, defs[..n], vals[..n]);
      if defs[n] < |regs| then r[defs[n] := vals[n]] else r
  }

  /** Reads its inputs in `from` and writes its results onto `onto`. */
  ghost function ExecOnto(i: Instr, from: State, onto: State): (s: State)
    ensures |s.regs| == |onto.regs|
  {
    State(Store(onto.regs, i.defs, Results(i, from)),
          if i.channel.Silent? then onto.logs
          else onto.logs[i.channel.id := LogOf(onto, i.channel) + [Event(i.op, Inputs(i, from))]])
  }

  ghost function Exec(i: Instr, s: State): State {
    ExecOnto(i, s, s)
  }

  // ----- Independence -----

  ghost predicate Apart(a: seq<nat>, b: seq<nat>) {
    forall r :: r in a ==> r !in b
  }

  ghost predicate SameChannel(a: Instr, b: Instr) {
    a.channel.On? && a.channel == b.channel
  }

  /** No register written by one is read or written by the other, and they are not on the same channel. */
  ghost predicate Independent(a: Instr, b: Instr) {
    Apart(a.defs, b.defs) && Apart(a.defs, b.uses) && Apart(b.defs, a.uses) && !SameChannel(a, b)
  }

  /** The last of the values stored to register r. */
  ghost function LastStored(defs: seq<nat>, vals: seq<int>, r: nat): int
    requires |defs| == |vals| && r in defs
  {
    var n := |defs| - 1;
    if defs[n] == r then vals[n] else
      assert defs == defs[..n] + [defs[n]];
      LastStored(defs[..n], vals[..n], r)
  }

  lemma {:induction false} StoreAt(regs: seq<int>, defs: seq<nat>, vals: seq<int>, r: nat)
    requires |defs| == |vals| && r < |regs|
    ensures Store(regs, defs, vals)[r] == if r in defs then LastStored(defs, vals, r) else regs[r]
  {
    if defs != [] {
      var n := |defs| - 1;
      assert defs == defs[..n] + [defs[n]];
      StoreAt(regs, defs[..n], vals[..n], r);
    }
  }

  lemma StoresCommute(regs: seq<int>, d0: seq<nat>, v0: seq<int>, d1: seq<nat>, v1: seq<int>)
    requires |d0| == |v0| && |d1| == |v1| && Apart(d0, d1)
    ensures Store(Store(regs, d0, v0), d1, v1) == Store(Store(regs, d1, v1), d0, v0)
  {
    var a, b := Store(Store(regs, d0, v0), d1, v1), Store(Store(regs, d1, v1), d0, v0);
    forall r | 0 <= r < |regs| ensures a[r] == b[r] {
      StoreAt(regs, d0, v0, r);
      StoreAt(regs, d1, v1, r);
      StoreAt(Store(regs, d0, v0), d1, v1, r);
      StoreAt(Store(regs, d1, v1), d0, v0, r);
    }
  }

  /** Writes elsewhere do not change what an instruction reads. */
  lemma SameInputs(i: Instr, s: State, t: State)
    requires |s.regs| == |t.regs| && LogOf(s, i.channel) == LogOf(t, i.channel)
    requires forall r :: r in i.uses && r < |s.regs| ==> s.regs[r] == t.regs[r]
    ensures Inputs(i, s) == Inputs(i, t) && Results(i, s) == Results(i, t)
  {
    assert Inputs(i, s) == Inputs(i, t);
  }

  lemma UndisturbedInputs(i: Instr, j: Instr, from: State, onto: State)
    requires Apart(j.defs, i.uses) && !SameChannel(i, j)
    ensures Inputs(i, ExecOnto(j, from, onto)) == Inputs(i, onto) &&
      Results(i, ExecOnto(j, from, onto)) == Results(i, onto)
  {
    var t := ExecOnto(j, from, onto);
    forall r | r in i.uses && r < |onto.regs| ensures t.regs[r] == onto.regs[r] {
      StoreAt(onto.regs, j.defs, Results(j, from), r);
    }
    SameInputs(i, t, onto);
  }

  lemma Commute(a: Instr, b: Instr, s: State)
    requires Independent(a, b)
    ensures Exec(b, Exec(a, s)) == Exec(a, Exec(b, s))
  {
    UndisturbedInputs(b, a, s, s);
    UndisturbedInputs(a, b, s, s);
    StoresCommute(s.regs, a.defs, Results(a, s), b.defs, Results(b, s));
    assert Exec(b, Exec(a, s)).logs == Exec(a, Exec(b, s)).logs;
  }

  // ----- Executing in an order -----

  ghost predicate Indexes(order: seq<nat>, n: nat) {
    forall k :: 0 <= k < |order| ==> order[k] < n
  }

  /** The instructions of `order`, one after the other. */
  ghost function Run(prog: seq<Instr>, order: seq<nat>, s: State): State
    requires Indexes(order, |prog|)
  {
    if order == [] then s else
      var n := |order| - 1;
      Exec(prog[order[n]], Run(prog, order[..n], s))
  }

  ghost function UpTo(n: nat): (r: seq<nat>)
    ensures |r| == n && forall k :: 0 <= k < n ==> r[k] == k
  {
    seq(n, k requires 0 <= k < n => k)
  }

  lemma UpToSteps(n: nat)
    ensures if n == 0 then UpTo(n) == [] else UpTo(n) == UpTo(n - 1) + [n - 1]
  {
  }

  lemma RunSnoc(prog: seq<Instr>, a: seq<nat>, x: nat, s: State)
    requires Indexes(a, |prog|) && x < |prog|
    ensures Indexes(a + [x], |prog|) && Run(prog, a + [x], s) == Exec(prog[x], Run(prog, a, s))
  {
    var all := a + [x];
    assert all[..|all| - 1] == a && all[|all| - 1] == x;
  }

  ghost predicate AllIndependent(prog: seq<Instr>, b: seq<nat>, x: nat)
    requires Indexes(b, |prog|) && x < |prog|
  {
    forall k :: 0 <= k < |b| ==> Independent(prog[b[k]], prog[x])
  }

  /** One more instruction past x. */
  lemma SinkStep(prog: seq<Instr>, p: seq<nat>, q: seq<nat>, x: nat, y: nat, s: State)
    requires Indexes(p, |prog|) && Indexes(q, |prog|) && Indexes(p + [x], |prog|) && x < |prog| && y < |prog|
    requires Independent(prog[y], prog[x]) && Run(prog, q, s) == Run(prog, p + [x], s)
    ensures Indexes(q + [y], |prog|) && Indexes(p + [y] + [x], |prog|)
    ensures Run(prog, q + [y], s) == Run(prog, p + [y] + [x], s)
  {
    RunSnoc(prog, p, x, s);
    RunSnoc(prog, q, y, s);
    RunSnoc(prog, p, y, s);
    RunSnoc(prog, p + [y], x, s);
    Commute(prog[y], prog[x], Run(prog, p, s));
  }

  lemma LastApart<T>(a: seq<T>, b: seq<T>)
    requires b != []
    ensures a + b == a + b[..|b| - 1] + [b[|b| - 1]]
  {
  }

  /** An instruction independent of all that follow may as well come last. */
  lemma {:induction false} Sink(prog: seq<Instr>, a: seq<nat>, x: nat, b: seq<nat>, s: State)
    requires Indexes(a, |prog|) && x < |prog| && Indexes(b, |prog|)
    requires AllIndependent(prog, b, x)
    ensures Indexes(a + [x] + b, |prog|) && Indexes(a + b, |prog|)
    ensures Run(prog, a + [x] + b, s) == Run(prog, a + b + [x], s)
    decreases |b|
  {
    if b == [] {
      assert a + [x] + b == a + [x] && a + b == a;
    } else {
      var n := |b| - 1;
      var c, y := b[..n], b[n];
      Sink(prog, a, x, c, s);
      LastApart(a + [x], b);
      LastApart(a, b);
      hide Run, Indexes;
      SinkStep(prog, a + c, a + [x] + c, x, y, s);
    }
  }

  /** Instructions that are out of their original order are independent. */
  ghost predicate KeepsConflicts(prog: seq<Instr>, order: seq<nat>)
    requires Indexes(order, |prog|)
  {
    forall i, j :: 0 <= i < j < |order| && order[i] > order[j] ==> Independent(prog[order[j]], prog[order[i]])
  }

  /** Taking out the last instruction of the original program keeps the rest in a good order. */
  lemma WithoutLast(prog: seq<Instr>, a: seq<nat>, b: seq<nat>, n: nat)
    requires 0 < n <= |prog| && Distinct(a + [n - 1] + b) && Indexes(a + [n - 1] + b, n)
    requires KeepsConflicts(prog, a + [n - 1] + b)
    ensures Distinct(a + b) && Indexes(a + b, n - 1) && KeepsConflicts(prog, a + b)
    ensures Indexes(a, |prog|) && Indexes(b, |prog|) && Indexes(a + b, |prog|)
    ensures AllIndependent(prog, b, n - 1)
  {
    var order, rest, p := a + [n - 1] + b, a + b, |a|;
    forall k | 0 <= k < |rest| ensures rest[k] < n - 1 && rest[k] == order[Shift(k, p)] {
      var k' := Shift(k, p);
      assert order[p] == n - 1 && order[k'] == rest[k] && k' != p;
    }
    forall k | 0 <= k < |a| ensures a[k] < n - 1 {
      assert rest[k] == a[k];
    }
    forall i, j | 0 <= i < j < |rest|
      ensures rest[i] != rest[j] && (rest[i] > rest[j] ==> Independent(prog[rest[j]], prog[rest[i]]))
    {
      assert order[Shift(i, p)] == rest[i] && order[Shift(j, p)] == rest[j];
    }
    forall k | 0 <= k < |b| ensures b[k] < n - 1 && Independent(prog[b[k]], prog[n - 1]) {
      assert order[p] == n - 1 && order[p + 1 + k] == b[k];
    }
  }

  ghost function Shift(k: nat, p: nat): nat {
    if k < p then k else k + 1
  }

  /** `rest` is `order` without x, and all that x is moved past is independent of it. */
  ghost predicate Removed(prog: seq<Instr>, order: seq<nat>, rest: seq<nat>, x: nat)
    requires x < |prog|
  {
    exists a, b :: Indexes(b, |prog|) && AllIndependent(prog, b, x) && order == a + [x] + b && rest == a + b
  }

  lemma RunRemoved(prog: seq<Instr>, order: seq<nat>, rest: seq<nat>, x: nat, s: State)
    requires x < |prog| && Indexes(rest, |prog|) && Removed(prog, order, rest, x)
    ensures Indexes(order, |prog|) && Run(prog, order, s) == Exec(prog[x], Run(prog, rest, s))
  {
    var a, b :| Indexes(b, |prog|) && AllIndependent(prog, b, x) && order == a + [x] + b && rest == a + b;
    forall k | 0 <= k < |a| ensures a[k] < |prog| {
      assert rest[k] == a[k];
    }
    Sink(prog, a, x, b, s);
    RunSnoc(prog, rest, x, s);
  }

  lemma SplitAtLast(order: seq<nat>, n: nat) returns (a: seq<nat>, b: seq<nat>)
    requires n > 0 && |order| == n && Distinct(order) && Indexes(order, n)
    ensures order == a + [n - 1] + b
  {
    Pigeonhole(order, n, n - 1);
    var p :| 0 <= p < n && order[p] == n - 1;
    a, b := order[..p], order[p + 1..];
  }

  lemma RemoveLast(prog: seq<Instr>, order: seq<nat>, n: nat) returns (rest: seq<nat>)
    requires 0 < n <= |prog| && |order| == n && Distinct(order) && Indexes(order, n) && KeepsConflicts(prog, order)
    ensures |rest| == n - 1 && Distinct(rest) && Indexes(rest, n - 1) && KeepsConflicts(prog, rest)
    ensures Removed(prog, order, rest, n - 1)
  {
    var a, b := SplitAtLast(order, n);
    WithoutLast(prog, a, b, n);
    rest := a + b;
    assert Removed(prog, order, rest, n - 1);
  }

  /** An order of the first n instructions, conflicting ones in place. */
  ghost predicate GoodOrder(prog: seq<Instr>, order: seq<nat>, n: nat) {
    n <= |prog| && |order| == n && Distinct(order) && Indexes(order, n) && Indexes(order, |prog|) &&
      KeepsConflicts(prog, order)
  }

  lemma GoodOrderWithoutLast(prog: seq<Instr>, order: seq<nat>, n: nat) returns (rest: seq<nat>)
    requires GoodOrder(prog, order, n) && n > 0
    ensures GoodOrder(prog, rest, n - 1)
    ensures forall s :: Run(prog, order, s) == Exec(prog[n - 1], Run(prog, rest, s))
  {
    rest := RemoveLast(prog, order, n);
    forall s ensures Run(prog, order, s) == Exec(prog[n - 1], Run(prog, rest, s)) {
      RunRemoved(prog, order, rest, n - 1, s);
    }
  }

  lemma RunUpTo(prog: seq<Instr>, n: nat, s: State)
    requires n <= |prog|
    ensures Run(prog, UpTo(n), s) == if n == 0 then s else Exec(prog[n - 1], Run(prog, UpTo(n - 1), s))
  {
    UpToSteps(n);
    if n > 0 {
      RunSnoc(prog, UpTo(n - 1), n - 1, s);
    }
  }

  /** Any order of the first n instructions that keeps conflicting ones in place computes the same state. */
  lemma {:induction false} ReorderingKeepsMeaning(prog: seq<Instr>, order: seq<nat>, n: nat, s: State)
    requires GoodOrder(prog, order, n)
    ensures Run(prog, order, s) == Run(prog, UpTo(n), s)
    decreases n
  {
    RunUpTo(prog, n, s);
    if n > 0 {
      var rest := GoodOrderWithoutLast(prog, order, n);
      ReorderingKeepsMeaning(prog, rest, n - 1, s);
    }
  }

  // ----- Merged instructions -----

  /** A merged instruction reads all its inputs before it writes anything. */
  ghost function RunMerged(prog: seq<Instr>, group: seq<nat>, s: State): State
    requires Indexes(group, |prog|)
  {
    if group == [] then s else
      var n := |group| - 1;
      ExecOnto(prog[group[n]], s, RunMerged(prog, group[..n], s))
  }

  ghost predicate AllIndexes(groups: seq<seq<nat>>, n: nat) {
    forall k :: 0 <= k < |groups| ==> Indexes(groups[k], n)
  }

  /** A schedule is a sequence of merged instructions. */
  ghost function RunSchedule(prog: seq<Instr>, groups: seq<seq<nat>>, s: State): State
    requires AllIndexes(groups, |prog|)
  {
    if groups == [] then s else
      var n := |groups| - 1;
      RunMerged(prog, groups[n], RunSchedule(prog, groups[..n], s))
  }

  ghost predicate PairwiseIndependent(prog: seq<Instr>, group: seq<nat>)
    requires Indexes(group, |prog|)
  {
    forall i, j :: 0 <= i < j < |group| ==> Independent(prog[group[i]], prog[group[j]])
  }

  lemma {:induction false} UndisturbedByGroup(prog: seq<Instr>, group: seq<nat>, i: Instr, s: State)
    requires Indexes(group, |prog|)
    requires forall k :: 0 <= k < |group| ==> Independent(prog[group[k]], i)
    ensures Inputs(i, RunMerged(prog, group, s)) == Inputs(i, s) &&
      Results(i, RunMerged(prog, group, s)) == Results(i, s)
  {
    if group != [] {
      var n := |group| - 1;
      UndisturbedByGroup(prog, group[..n], i, s);
      UndisturbedInputs(i, prog[group[n]], s, RunMerged(prog, group[..n], s));
    }
  }

  /** A merged instruction with independent parts does what its parts do one after the other. */
  lemma {:induction false} MergedIsSequential(prog: seq<Instr>, group: seq<nat>, s: State)
    requires Indexes(group, |prog|) && PairwiseIndependent(prog, group)
    ensures RunMerged(prog, group, s) == Run(prog, group, s)
  {
    if group != [] {
      var n := |group| - 1;
      MergedIsSequential(prog, group[..n], s);
      UndisturbedByGroup(prog, group[..n], prog[group[n]], s);
    }
  }

  ghost function Flatten(groups: seq<seq<nat>>): seq<nat> {
    if groups == [] then [] else Flatten(groups[..|groups| - 1]) + groups[|groups| - 1]
  }

  lemma {:induction false} FlattenIndexes(groups: seq<seq<nat>>, n: nat)
    requires AllIndexes(groups, n)
    ensures Indexes(Flatten(groups), n)
  {
    if groups != [] {
      FlattenIndexes(groups[..|groups| - 1], n);
    }
  }

  lemma {:induction false} RunAppend(prog: seq<Instr>, a: seq<nat>, b: seq<nat>, s: State)
    requires Indexes(a, |prog|) && Indexes(b, |prog|)
    ensures Indexes(a + b, |prog|) && Run(prog, a + b, s) == Run(prog, b, Run(prog, a, s))
    decreases |b|
  {
    if b == [] {
      assert a + b == a;
    } else {
      var n := |b| - 1;
      assert (a + b)[..|a + b| - 1] == a + b[..n];
      RunAppend(prog, a, b[..n], s);
    }
  }

  lemma {:induction false} ScheduleIsSequential(prog: seq<Instr>, groups: seq<seq<nat>>, s: State)
    requires AllIndexes(groups, |prog|)
    requires forall k :: 0 <= k < |groups| ==> PairwiseIndependent(prog, groups[k])
    ensures Indexes(Flatten(groups), |prog|)
    ensures RunSchedule(prog, groups, s) == Run(prog, Flatten(groups), s)
  {
    FlattenIndexes(groups, |prog|);
    if groups != [] {
      var n := |groups| - 1;
      ScheduleIsSequential(prog, groups[..n], s);
      FlattenIndexes(groups[..n], |prog|);
      MergedIsSequential(prog, groups[n], RunSchedule(prog, groups[..n], s));
      RunAppend(prog, Flatten(groups[..n]), groups[n], s);
    }
  }
}
