/** Batcher's odd-even merge sort: the comparisons made do not depend on the data. */
module OddEvenMergeSort {

  datatype Outcome = Done | LengthNotPowerOfTwo

  ghost predicate Sorted(s: seq<int>) {
    forall i, j :: 0 <= i < j < |s| ==> s[i] <= s[j]
  }

  predicate PowerOfTwo(n: nat) {
    n == 1 || (n > 0 && n % 2 == 0 && PowerOfTwo(n / 2))
  }

  // ----- The specification functions of the in-place code -----

  /** cond_swap: the two values in order. */
  function CondSwap(x: int, y: int): (r: (int, int))
    ensures r.0 <= r.1 && (r == (x, y) || r == (y, x))
  {
    if x < y then (x, y) else (y, x)
  }

  function Evens(s: seq<int>): (r: seq<int>)
    ensures |r| == (|s| + 1) / 2
  {
    seq((|s| + 1) / 2, i requires 0 <= i < (|s| + 1) / 2 => s[2 * i])
  }

  function Odds(s: seq<int>): (r: seq<int>)
    ensures |r| == |s| / 2
  {
    seq(|s| / 2, i requires 0 <= i < |s| / 2 => s[2 * i + 1])
  }

  /** The first 2 * n + 1 elements of two lists interleaved with one comparison across each seam. */
  function Weave(even: seq<int>, odd: seq<int>, n: nat): (r: seq<int>)
    requires n < |even| == |odd|
    ensures |r| == 2 * n + 1
  {
    if n == 0 then [even[0]] else
      var p := CondSwap(odd[n - 1], even[n]);
      Weave(even, odd, n - 1) + [p.0, p.1]
  }

  function Woven(even: seq<int>, odd: seq<int>): (r: seq<int>)
    requires |even| == |odd| > 0
    ensures |r| == 2 * |even|
  {
    Weave(even, odd, |even| - 1) + [odd[|odd| - 1]]
  }

  function Merged(s: seq<int>): (r: seq<int>)
    requires |s| > 1 && PowerOfTwo(|s|)
    ensures |r| == |s|
    decreases |s|
  {
    if |s| == 2 then var p := CondSwap(s[0], s[1]); [p.0, p.1]
    else Woven(Merged(Evens(s)), Merged(Odds(s)))
  }

  // ----- Counting elements up to a bound -----

  ghost function Count(s: seq<int>, t: int): (c: nat)
    ensures c <= |s|
  {
    if s == [] then 0 else Count(s[..|s| - 1], t) + if s[|s| - 1] <= t then 1 else 0
  }

  /** In a sorted list, the elements up to t are exactly the first Count(s, t). */
  lemma {:induction false} SortedCount(s: seq<int>, t: int, i: nat)
    requires Sorted(s) && i < |s|
    ensures s[i] <= t <==> i < Count(s, t)
  {
    var r := s[..|s| - 1];
    if i < |r| {
      SortedCount(r, t, i);
    } else if |r| > 0 {
      SortedCount(r, t, |r| - 1);
    }
  }

  lemma {:induction false} CountSplit(a: seq<int>, b: seq<int>, t: int)
    ensures Count(a + b, t) == Count(a, t) + Count(b, t)
  {
    if b == [] {
      assert a + b == a;
    } else {
      CountSplit(a, b[..|b| - 1], t);
      assert (a + b)[..|a + b| - 1] == a + b[..|b| - 1];
    }
  }

  lemma CountSnoc(s: seq<int>, x: int, t: int)
    ensures Count(s + [x], t) == Count(s, t) + if x <= t then 1 else 0
  {
    assert (s + [x])[..|s|] == s;
  }

  /** The counts at every bound say how often each element occurs. */
  lemma {:induction false} CountsTellMultiplicity(s: seq<int>, x: int)
    ensures multiset(s)[x] == Count(s, x) - Count(s, x - 1)
  {
    if s != [] {
      var r := s[..|s| - 1];
      CountsTellMultiplicity(r, x);
      assert s == r + [s[|s| - 1]];
    }
  }

  lemma SameCountsSameElements(a: seq<int>, b: seq<int>)
    requires forall t :: Count(a, t) == Count(b, t)
    ensures multiset(a) == multiset(b)
  {
    forall x ensures multiset(a)[x] == multiset(b)[x] {
      CountsTellMultiplicity(a, x);
      CountsTellMultiplicity(b, x);
    }
  }

  lemma EvensOddsSnoc(r: seq<int>, x: int, y: int)
    requires |r| % 2 == 0
    ensures Evens(r + [x, y]) == Evens(r) + [x]
    ensures Odds(r + [x, y]) == Odds(r) + [y]
  {
  }

  lemma {:induction false} EvensOddsCount(s: seq<int>, t: int)
    requires |s| % 2 == 0
    ensures Count(Evens(s), t) + Count(Odds(s), t) == Count(s, t)
  {
    if s != [] {
      var n := |s|;
      var r, x, y := s[..n - 2], s[n - 2], s[n - 1];
      assert s == r + [x, y] && r + [x, y] == r + [x] + [y];
      EvensOddsCount(r, t);
      EvensOddsSnoc(r, x, y);
      CountSnoc(Evens(r), x, t);
      CountSnoc(Odds(r), y, t);
      CountSnoc(r, x, t);
      CountSnoc(r + [x], y, t);
    }
  }

  /** In a sorted list the even places are ahead of the odd ones by at most one element at every bound. */
  lemma {:induction false} SortedEvensOdds(s: seq<int>, t: int)
    requires |s| % 2 == 0 && Sorted(s)
    ensures Count(Odds(s), t) <= Count(Evens(s), t) <= Count(Odds(s), t) + 1
  {
    if s != [] {
      var n := |s|;
      var r, x, y := s[..n - 2], s[n - 2], s[n - 1];
      assert s == r + [x, y];
      EvensOddsSnoc(r, x, y);
      CountSnoc(Evens(r), x, t);
      CountSnoc(Odds(r), y, t);
      hide Evens, Odds, Count;
      if x <= t {
        AllUpTo(Evens(r), t);
        AllUpTo(Odds(r), t);
      } else {
        SortedEvensOdds(r, t);
      }
    }
  }

  lemma {:induction false} AllUpTo(s: seq<int>, t: int)
    requires forall i :: 0 <= i < |s| ==> s[i] <= t
    ensures Count(s, t) == |s|
  {
    if s != [] {
      AllUpTo(s[..|s| - 1], t);
    }
  }

  lemma EvensOddsConcat(a: seq<int>, b: seq<int>)
    requires |a| % 2 == 0
    ensures Evens(a + b) == Evens(a) + Evens(b)
    ensures Odds(a + b) == Odds(a) + Odds(b)
  {
  }

  lemma EvensOddsSorted(s: seq<int>)
    requires Sorted(s)
    ensures Sorted(Evens(s)) && Sorted(Odds(s))
  {
  }

  // ----- Merging -----

  lemma {:induction false} WeaveCount(even: seq<int>, odd: seq<int>, n: nat, t: int)
    requires n < |even| == |odd|
    ensures Count(Weave(even, odd, n), t) == Count(odd[..n], t) + Count(even[..n + 1], t)
  {
    assert even[..n + 1] == even[..n] + [even[n]];
    CountSnoc(even[..n], even[n], t);
    if n > 0 {
      WeaveCount(even, odd, n - 1, t);
      assert odd[..n] == odd[..n - 1] + [odd[n - 1]];
      CountSnoc(odd[..n - 1], odd[n - 1], t);
      var p, w := CondSwap(odd[n - 1], even[n]), Weave(even, odd, n - 1);
      CountSnoc(w, p.0, t);
      CountSnoc(w + [p.0], p.1, t);
      assert w + [p.0] + [p.1] == w + [p.0, p.1];
    }
  }

  lemma WovenCount(even: seq<int>, odd: seq<int>, t: int)
    requires |even| == |odd| > 0
    ensures Count(Woven(even, odd), t) == Count(even, t) + Count(odd, t)
  {
    var n := |even| - 1;
    WeaveCount(even, odd, n, t);
    assert even[..n + 1] == even && odd[..n] + [odd[n]] == odd;
    CountSnoc(odd[..n], odd[n], t);
    CountSnoc(Weave(even, odd, n), odd[n], t);
  }

  lemma {:induction false} MergedCount(s: seq<int>, t: int)
    requires |s| > 1 && PowerOfTwo(|s|)
    ensures Count(Merged(s), t) == Count(s, t)
    decreases |s|
  {
    if |s| == 2 {
      PairCount(s, t);
    } else {
      var e, o := Evens(s), Odds(s);
      MergedCount(e, t);
      MergedCount(o, t);
      EvensOddsCount(s, t);
      WovenCount(Merged(e), Merged(o), t);
      assert Merged(s) == Woven(Merged(e), Merged(o));
    }
  }

  lemma PairCount(s: seq<int>, t: int)
    requires |s| == 2
    ensures Count(Merged(s), t) == Count(s, t)
  {
    var p := CondSwap(s[0], s[1]);
    assert s == [s[0]] + [s[1]] && [p.0, p.1] == [p.0] + [p.1];
    CountSplit([s[0]], [s[1]], t);
    CountSplit([p.0], [p.1], t);
  }

  /** Merging loses, invents and duplicates nothing, whatever the input. */
  lemma MergedElements(s: seq<int>)
    requires |s| > 1 && PowerOfTwo(|s|)
    ensures multiset(Merged(s)) == multiset(s)
  {
    forall t ensures Count(Merged(s), t) == Count(s, t) {
      MergedCount(s, t);
    }
    SameCountsSameElements(Merged(s), s);
  }

  /** The first list is ahead of the second by at most two elements at every bound. */
  ghost predicate Balanced(even: seq<int>, odd: seq<int>) {
    forall t :: Count(odd, t) <= Count(even, t) <= Count(odd, t) + 2
  }

  lemma BalancedAscends(even: seq<int>, odd: seq<int>, k: nat)
    requires Sorted(even) && Sorted(odd) && Balanced(even, odd) && k < |even| == |odd|
    ensures even[k] <= odd[k]
    ensures 0 < k && k + 1 < |even| ==> odd[k - 1] <= even[k + 1]
  {
    // at the bound odd[k] there are at least k + 1 odd elements, hence as many even ones
    SortedCount(odd, odd[k], k);
    SortedCount(even, odd[k], k);
    if 0 < k && k + 1 < |even| {
      // at the bound even[k + 1] there are at least k + 2 even elements, hence k odd ones
      SortedCount(even, even[k + 1], k + 1);
      SortedCount(odd, even[k + 1], k - 1);
    }
  }

  lemma SortedAppend(s: seq<int>, x: int)
    requires Sorted(s) && (s != [] ==> s[|s| - 1] <= x)
    ensures Sorted(s + [x])
  {
  }

  lemma {:induction false} WeaveSorted(even: seq<int>, odd: seq<int>, n: nat)
    requires n < |even| == |odd| && Sorted(even) && Sorted(odd) && Balanced(even, odd)
    ensures Sorted(Weave(even, odd, n))
  {
    if n > 0 {
      WeaveSorted(even, odd, n - 1);
      BalancedAscends(even, odd, n - 1);
      var p, w := CondSwap(odd[n - 1], even[n]), Weave(even, odd, n - 1);
      SortedAppend(w, p.0);
      SortedAppend(w + [p.0], p.1);
      assert w + [p.0] + [p.1] == w + [p.0, p.1];
    }
  }

  lemma WovenSorted(even: seq<int>, odd: seq<int>)
    requires |even| == |odd| > 0 && Sorted(even) && Sorted(odd) && Balanced(even, odd)
    ensures Sorted(Woven(even, odd))
  {
    var n := |even| - 1;
    WeaveSorted(even, odd, n);
    BalancedAscends(even, odd, n);
    SortedAppend(Weave(even, odd, n), odd[n]);
  }

  /** Merging two sorted halves gives a sorted list. */
  lemma {:induction false} MergedSorted(a: seq<int>, b: seq<int>)
    requires |a| == |b| > 0 && PowerOfTwo(|a + b|) && Sorted(a) && Sorted(b)
    ensures Sorted(Merged(a + b))
    decreases |a|
  {
    var s := a + b;
    if |s| > 2 {
      var even, odd := Merged(Evens(s)), Merged(Odds(s));
      assert |a| % 2 == 0;
      EvensOddsConcat(a, b);
      EvensOddsSorted(a);
      EvensOddsSorted(b);
      MergedSorted(Evens(a), Evens(b));
      MergedSorted(Odds(a), Odds(b));
      forall t ensures Count(odd, t) <= Count(even, t) <= Count(odd, t) + 2 {
        MergedCounts(a, b, t);
      }
      WovenSorted(even, odd);
    }
  }

  lemma MergedCounts(a: seq<int>, b: seq<int>, t: int)
    requires |a| == |b| > 1 && |a| % 2 == 0 && PowerOfTwo(|a + b|) && Sorted(a) && Sorted(b)
    ensures var even, odd := Count(Merged(Evens(a + b)), t), Count(Merged(Odds(a + b)), t);
            odd <= even <= odd + 2
  {
    EvensOddsConcat(a, b);
    MergedCount(Evens(a + b), t);
    MergedCount(Odds(a + b), t);
    CountSplit(Evens(a), Evens(b), t);
    CountSplit(Odds(a), Odds(b), t);
    SortedEvensOdds(a, t);
    SortedEvensOdds(b, t);
  }

  lemma MergedIsMerge(s: seq<int>, a: seq<int>, b: seq<int>)
    requires |a| == |b| > 0 && s == a + b && PowerOfTwo(|s|) && Sorted(a) && Sorted(b)
    ensures multiset(Merged(s)) == multiset(s)
    ensures Sorted(Merged(s))
  {
    MergedElements(s);
    MergedSorted(a, b);
  }

  // ----- The in-place algorithms -----

  /** The slices a[::2] and a[1::2], as new lists. */
  method Unzip(a: array<int>) returns (even: array<int>, odd: array<int>)
    requires a.Length % 2 == 0
    ensures fresh(even) && fresh(odd) && even != odd
    ensures even[..] == Evens(a[..]) && odd[..] == Odds(a[..])
  {
    even := new int[a.Length / 2](i requires 0 <= i < a.Length / 2 reads a => a[2 * i]);
    odd := new int[a.Length / 2](i requires 0 <= i < a.Length / 2 reads a => a[2 * i + 1]);
  }

  /** The loop that puts the two merged lists back, comparing across each seam. */
  method Interleave(a: array<int>, even: array<int>, odd: array<int>)
    requires even.Length == odd.Length > 0 && a.Length == 2 * even.Length && a != even && a != odd
    modifies a
    ensures a[..] == Woven(even[..], odd[..])
  {
    var n := even.Length;
    a[0] := even[0];
    for i := 1 to n
      invariant even[..] == old(even[..]) && odd[..] == old(odd[..])
      invariant a[..2 * i - 1] == Weave(even[..], odd[..], i - 1)
    {
      var p := CondSwap(odd[i - 1], even[i]);
      a[2 * i - 1], a[2 * i] := p.0, p.1;
      assert a[..2 * i + 1] == a[..2 * i - 1] + [p.0, p.1];
    }
    a[a.Length - 1] := odd[n - 1];
    assert a[..] == a[..2 * n - 1] + [odd[n - 1]];
  }

  /** odd_even_merge: rewrites the list in place, through copies of its even and odd places. */
  method OddEvenMerge(a: array<int>)
    requires a.Length > 1 && PowerOfTwo(a.Length)
    modifies a
    ensures a[..] == Merged(old(a[..]))
    decreases a.Length
  {
    if a.Length == 2 {
      var p := CondSwap(a[0], a[1]);
      a[0], a[1] := p.0, p.1;
      assert a[..] == [p.0, p.1];
    } else {
      var even, odd := Unzip(a);
      OddEvenMerge(even);
      OddEvenMerge(odd);
      Interleave(a, even, odd);
    }
  }

  /** The slices a[:n] and a[n:], as new lists. */
  method Halves(a: array<int>, n: nat) returns (lower: array<int>, upper: array<int>)
    requires a.Length == 2 * n
    ensures fresh(lower) && fresh(upper) && lower != upper
    ensures lower[..] == a[..n] && upper[..] == a[n..]
  {
    lower := new int[n](i requires 0 <= i < n reads a => a[i]);
    upper := new int[n](i requires 0 <= i < n reads a => a[n + i]);
  }

  /** odd_even_merge_sort: sorts lists whose length is a power of two, and refuses the others
      before touching them. */
  method OddEvenMergeSort(a: array<int>) returns (r: Outcome)
    requires a.Length > 0
    modifies a
    ensures r.Done? <==> PowerOfTwo(a.Length)
    ensures r.Done? ==> Sorted(a[..]) && multiset(a[..]) == multiset(old(a[..]))
    ensures !r.Done? ==> a[..] == old(a[..])
    decreases a.Length
  {
    if a.Length == 1 {
      return Done;
    } else if a.Length % 2 == 0 {
      ghost var was := a[..];
      var n := a.Length / 2;
      var lower, upper := Halves(a, n);
      r := OddEvenMergeSort(lower);
      if !r.Done? { return; }
      r := OddEvenMergeSort(upper);
      if !r.Done? { return; }
      Concatenate(lower, upper, a);
      HalvesPermuted(was, n, lower[..], upper[..]);
      ghost var mid := a[..];
      OddEvenMerge(a);
      MergedIsMerge(mid, lower[..], upper[..]);
    } else {
      return LengthNotPowerOfTwo;
    }
  }

  lemma HalvesPermuted(was: seq<int>, n: nat, lower: seq<int>, upper: seq<int>)
    requires n <= |was| && multiset(lower) == multiset(was[..n]) && multiset(upper) == multiset(was[n..])
    ensures multiset(lower + upper) == multiset(was)
  {
    assert was == was[..n] + was[n..];
  }

  /** The slice assignment a[:] = lower + upper. */
  method Concatenate(lower: array<int>, upper: array<int>, a: array<int>)
    requires a != lower && a != upper && a.Length == lower.Length + upper.Length
    modifies a
    ensures a[..] == lower[..] + upper[..]
  {
    forall i | 0 <= i < a.Length {
      a[i] := if i < lower.Length then lower[i] else upper[i - lower.Length];
    }
  }
}
