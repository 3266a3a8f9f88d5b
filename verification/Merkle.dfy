/** The Merkle root over the evaluator's label pairs. */
module Merkle {
  import opened Blocks
  import opened Serialization

  function Pair(sha: seq<bv8> -> Hash, a: seq<bv8>, b: seq<bv8>): Hash {
    sha(a + b)
  }

  /** The level above: neighbours hashed together, the last node of an odd level with itself. */
  function Next(sha: seq<bv8> -> Hash, level: seq<Hash>): (r: seq<Hash>)
    ensures |r| == (|level| + 1) / 2
  {
    seq((|level| + 1) / 2, i requires 0 <= i < (|level| + 1) / 2 =>
      Pair(sha, level[2 * i], level[if 2 * i + 1 < |level| then 2 * i + 1 else 2 * i]))
  }

  function Root(sha: seq<bv8> -> Hash, level: seq<Hash>): Hash
    requires level != []
    decreases |level|
  {
    if |level| == 1 then level[0] else Root(sha, Next(sha, level))
  }

  function Leaves(sha: seq<bv8> -> Hash, pairs: seq<(Block, Block)>): (r: seq<Hash>)
    ensures |r| == |pairs|
  {
    seq(|pairs|, i requires 0 <= i < |pairs| => Pair(sha, pairs[i].0, pairs[i].1))
  }

  function RootOfPairs(sha: seq<bv8> -> Hash, pairs: seq<(Block, Block)>): Hash {
    if pairs == [] then sha([]) else Root(sha, Leaves(sha, pairs))
  }

  method HashLeaves(sha: seq<bv8> -> Hash, pairs: seq<(Block, Block)>) returns (level: seq<Hash>)
    ensures level == Leaves(sha, pairs)
  {
    level := [];
    for i := 0 to |pairs|
      invariant level == Leaves(sha, pairs)[..i]
    {
      level := level + [Pair(sha, pairs[i].0, pairs[i].1)];
    }
  }

  method NextLevel(sha: seq<bv8> -> Hash, level: seq<Hash>) returns (next: seq<Hash>)
    requires |level| > 1
    ensures next == Next(sha, level)
  {
    var even := level;
    if |even| % 2 == 1 {
      even := even + [even[|even| - 1]];
    }
    next := [];
    for i := 0 to |even| / 2
      invariant next == Next(sha, level)[..i]
    {
      next := next + [Pair(sha, even[2 * i], even[2 * i + 1])];
    }
  }

  /** merkle_root_pairs */
  method MerkleRootPairs(sha: seq<bv8> -> Hash, pairs: seq<(Block, Block)>) returns (root: Hash)
    ensures root == RootOfPairs(sha, pairs)
  {
    if pairs == [] {
      return sha([]);
    }
    var level := HashLeaves(sha, pairs);
    while |level| > 1
      invariant level != [] && Root(sha, level) == RootOfPairs(sha, pairs)
      decreases |level|
    {
      level := NextLevel(sha, level);
    }
    return level[0];
  }

  /** One pair is hashed itself, two pairs in order. */
  lemma SmallRoots(sha: seq<bv8> -> Hash, a: (Block, Block), b: (Block, Block))
    ensures RootOfPairs(sha, [a]) == sha(a.0 + a.1)
    ensures RootOfPairs(sha, [a, b]) == sha(sha(a.0 + a.1) + sha(b.0 + b.1))
  {
    var l := Leaves(sha, [a, b]);
    assert Leaves(sha, [a]) == [sha(a.0 + a.1)] && l == [sha(a.0 + a.1), sha(b.0 + b.1)];
    assert Next(sha, l) == [Pair(sha, l[0], l[1])];
    assert Root(sha, l) == Root(sha, Next(sha, l)) == Next(sha, l)[0];
  }

  // ----- What the root commits to -----

  ghost predicate Collides(sha: seq<bv8> -> Hash) {
    exists x, y :: x != y && sha(x) == sha(y)
  }

  lemma PairBinds(sha: seq<bv8> -> Hash, a: seq<bv8>, b: seq<bv8>, c: seq<bv8>, d: seq<bv8>)
    requires |a| == |c| && Pair(sha, a, b) == Pair(sha, c, d)
    ensures (a == c && b == d) || Collides(sha)
  {
    if a + b == c + d {
      assert a == (a + b)[..|a|] == (c + d)[..|a|] == c;
      assert b == (a + b)[|a|..] == (c + d)[|a|..] == d;
    }
  }

  /** Levels of one size with the same level above are the same, unless the hash collides. */
  lemma NextBinds(sha: seq<bv8> -> Hash, l: seq<Hash>, m: seq<Hash>)
    requires |l| == |m| && Next(sha, l) == Next(sha, m)
    ensures l == m || Collides(sha)
  {
    hide Collides, Pair;
    if !Collides(sha) {
      forall i | 0 <= i < |l| ensures l[i] == m[i] {
        var k := i / 2;
        var right := if 2 * k + 1 < |l| then 2 * k + 1 else 2 * k;
        assert Next(sha, l)[k] == Next(sha, m)[k];
        PairBinds(sha, l[2 * k], l[right], m[2 * k], m[right]);
        assert i == 2 * k || i == right;
      }
    }
  }

  /** Two levels of one size under the same root are the same, unless the hash collides. */
  lemma {:induction false} LevelBinds(sha: seq<bv8> -> Hash, l: seq<Hash>, m: seq<Hash>)
    requires |l| == |m| && l != [] && Root(sha, l) == Root(sha, m)
    ensures l == m || Collides(sha)
    decreases |l|
  {
    hide Collides, Next;
    if |l| > 1 {
      LevelBinds(sha, Next(sha, l), Next(sha, m));
      if !Collides(sha) {
        NextBinds(sha, l, m);
      }
    } else {
      assert l[0] == m[0];
    }
  }

  /** The root commits to every label pair: as many other pairs under the same root expose a collision. */
  lemma RootCommits(sha: seq<bv8> -> Hash, pairs: seq<(Block, Block)>, others: seq<(Block, Block)>)
    requires |pairs| == |others| && RootOfPairs(sha, pairs) == RootOfPairs(sha, others)
    ensures pairs == others || Collides(sha)
  {
    hide Collides, Pair, Root;
    if pairs != [] && !Collides(sha) {
      LevelBinds(sha, Leaves(sha, pairs), Leaves(sha, others));
      forall i | 0 <= i < |pairs| ensures pairs[i] == others[i] {
        assert Leaves(sha, pairs)[i] == Leaves(sha, others)[i];
        PairBinds(sha, pairs[i].0, pairs[i].1, others[i].0, others[i].1);
      }
    }
  }

  /** The number of pairs is not committed to: repeating the last of an odd number of pairs keeps the root. */
  lemma RootOfPadded(sha: seq<bv8> -> Hash, pairs: seq<(Block, Block)>)
    requires |pairs| % 2 == 1 && |pairs| > 1
    ensures RootOfPairs(sha, pairs + [pairs[|pairs| - 1]]) == RootOfPairs(sha, pairs)
  {
    var l, m := Leaves(sha, pairs), Leaves(sha, pairs + [pairs[|pairs| - 1]]);
    assert m == l + [l[|l| - 1]];
    forall i | 0 <= i < (|l| + 1) / 2 ensures Next(sha, m)[i] == Next(sha, l)[i] {
      assert 2 * i == |l| - 1 || 2 * i + 1 < |l|;
    }
    assert Next(sha, m) == Next(sha, l);
  }
}
