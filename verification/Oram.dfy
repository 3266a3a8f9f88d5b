/** Oblivious RAM seen through its contract: indexed cells, each empty or holding a value,
    where reading an empty cell yields a default. Only the contents are modelled,
    not the access pattern. */
module Oram {

  datatype Cell<+T> = Empty | Full(value: T)

  /** `read(index)`: the stored value, or the default where nothing is stored. */
  function Get<T>(ram: seq<Cell<T>>, index: int, default: T): T {
    if 0 <= index < |ram| && ram[index].Full? then ram[index].value else default
  }

  /** The second result of `read(index)`. */
  predicate IsEmpty<T>(ram: seq<Cell<T>>, index: int) {
    !(0 <= index < |ram| && ram[index].Full?)
  }

  /** `access(index, value, write, new_empty)`; a read-only access leaves the memory alone. */
  function Access<T>(ram: seq<Cell<T>>, index: int, value: T, write: bool, newEmpty: bool := false): seq<Cell<T>>
    requires write ==> 0 <= index < |ram|
  {
    if write then ram[index := if newEmpty then Empty else Full(value)] else ram
  }
}

/** Counting facts about finite ranges of integers. */
module Counting {

  ghost predicate Distinct<T>(s: seq<T>) {
    forall i, j :: 0 <= i < j < |s| ==> s[i] != s[j]
  }

  ghost predicate InRange(s: seq<int>, n: int) {
    forall i :: 0 <= i < |s| ==> 0 <= s[i] < n
  }

  ghost function Range(n: nat): (r: set<int>)
    ensures |r| == n
    ensures forall i :: i in r <==> 0 <= i < n
  {
    if n == 0 then {} else Range(n - 1) + {n - 1}
  }

  lemma {:induction false} DistinctCardinality<T>(s: seq<T>)
    requires Distinct(s)
    ensures |set x | x in s| == |s|
  {
    if s == [] {
      assert (set x | x in s) == {};
    } else {
      var t := s[..|s| - 1];
      var last := s[|s| - 1];
      DistinctCardinality(t);
      assert (set x | x in s) == (set x | x in t) + {last};
    }
  }

  /** A list without repetition is no longer than the set its elements come from. */
  lemma DistinctFits(s: seq<int>, n: nat)
    requires Distinct(s) && InRange(s, n)
    ensures |s| <= n
  {
    DistinctCardinality(s);
    SubsetCardinality((set x | x in s), Range(n));
  }

  lemma {:induction false} SubsetCardinality<T>(a: set<T>, b: set<T>)
    requires a <= b
    ensures |a| <= |b|
    ensures |a| == |b| ==> a == b
  {
    assert b == a + (b - a);
    assert |b| == |a| + |b - a|;
  }

  /** Pigeonhole: n distinct values in [0, n) are all of them. */
  lemma Pigeonhole(s: seq<int>, n: nat, x: int)
    requires |s| == n && Distinct(s) && InRange(s, n) && 0 <= x < n
    ensures x in s
  {
    DistinctCardinality(s);
    assert (set y | y in s) <= Range(n);
    SubsetCardinality((set y | y in s), Range(n));
    var all := set y | y in s;
    assert all == Range(n);
    assert x in all;
  }
}
