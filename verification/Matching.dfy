/** Gale-Shapley stable matching as run by Matchmaker over oblivious RAM. */
module Matching {
  import opened Oram
  import opened Counting

  // ----- The matching problem -----

  /** As many men as women, with a list of women for every man and a table of ranks for every woman:
      prefs[m] lists the women in m's order, ranks[w][m] is m's place in w's order. */
  ghost predicate Lists(prefs: seq<seq<int>>, ranks: seq<seq<int>>) {
    && |ranks| == |prefs|
    && (forall m :: 0 <= m < |prefs| ==> |prefs[m]| == |prefs| && InRange(prefs[m], |prefs|))
    && (forall w :: 0 <= w < |prefs| ==> |ranks[w]| == |prefs|)
  }

  /** Every list names every woman once, and no woman ranks two men alike. */
  ghost predicate Profile(prefs: seq<seq<int>>, ranks: seq<seq<int>>) {
    && Lists(prefs, ranks)
    && (forall m :: 0 <= m < |prefs| ==> Distinct(prefs[m]))
    && (forall w :: 0 <= w < |prefs| ==> Distinct(ranks[w]))
  }

  /** Man m would rather have w than his partner in mu. */
  ghost predicate ManPrefers(prefs: seq<seq<int>>, mu: seq<int>, m: int, w: int)
    requires 0 <= m < |prefs| && |mu| == |prefs|
  {
    exists i, j :: 0 <= i < j < |prefs[m]| && prefs[m][i] == w && prefs[m][j] == mu[m]
  }

  /** mu sends each man to a wife, no two to the same, and no man and woman
      both prefer each other to the partners mu gives them. */
  ghost predicate Stable(prefs: seq<seq<int>>, ranks: seq<seq<int>>, mu: seq<int>)
    requires Profile(prefs, ranks)
  {
    && |mu| == |prefs| && InRange(mu, |prefs|) && Distinct(mu)
    && forall m, h :: 0 <= m < |prefs| && 0 <= h < |prefs| && ManPrefers(prefs, mu, m, mu[h]) ==>
                        ranks[mu[h]][h] < ranks[mu[h]][m]
  }

  // ----- The state of a run -----

  datatype State = State(wives: seq<Cell<int>>, husbands: seq<Cell<int>>, propose: seq<int>, free: seq<int>)

  ghost predicate Shaped(s: State, n: nat) {
    && |s.wives| == |s.husbands| == |s.propose| == n
    && (forall m :: 0 <= m < n ==> 0 <= s.propose[m] <= n)
    && InRange(s.free, n)
  }

  /** wives and husbands are each other's inverse. */
  ghost predicate Couples(wives: seq<Cell<int>>, husbands: seq<Cell<int>>, n: nat)
    requires |wives| == |husbands| == n
  {
    && (forall m :: 0 <= m < n && wives[m].Full? ==> 0 <= wives[m].value < n && husbands[wives[m].value] == Full(m))
    && (forall w :: 0 <= w < n && husbands[w].Full? ==>
        0 <= husbands[w].value < n && wives[husbands[w].value] == Full(w))
  }

  /** The stack holds exactly the men without a wife, each once. */
  ghost predicate FreeList(s: State, n: nat)
    requires Shaped(s, n)
  {
    && Distinct(s.free)
    && (forall m :: 0 <= m < n ==> (m in s.free <==> s.wives[m].Empty?))
  }

  /** Woman w is engaged to somebody she likes at least as much as m. */
  ghost predicate Satisfied(ranks: seq<seq<int>>, s: State, m: int, w: int) {
    && 0 <= w < |s.husbands| && w < |ranks| && s.husbands[w].Full?
    && 0 <= s.husbands[w].value < |ranks[w]| && 0 <= m < |ranks[w]|
    && ranks[w][s.husbands[w].value] <= ranks[w][m]
  }

  /** If m is engaged, then to the last woman he asked. */
  ghost predicate HasLastAsked(prefs: seq<seq<int>>, s: State, m: int)
    requires 0 <= m < |prefs| == |s.wives| == |s.propose|
  {
    s.wives[m].Full? ==> 0 < s.propose[m] <= |prefs[m]| && s.wives[m].value == prefs[m][s.propose[m] - 1]
  }

  ghost predicate Progressed(prefs: seq<seq<int>>, ranks: seq<seq<int>>, s: State)
    requires Lists(prefs, ranks) && Shaped(s, |prefs|)
  {
    && (forall m :: 0 <= m < |prefs| ==> HasLastAsked(prefs, s, m))
    && (forall m, k {:trigger Satisfied(ranks, s, m, prefs[m][k])} ::
          0 <= m < |prefs| && 0 <= k < s.propose[m] ==> Satisfied(ranks, s, m, prefs[m][k]))
  }

  /** How many of m's proposals have been turned down so far. */
  ghost function Rejections(s: State, m: int): int
    requires 0 <= m < |s.wives| && |s.propose| == |s.wives|
  {
    if s.wives[m].Full? then s.propose[m] - 1 else s.propose[m]
  }

  /** No man has been turned down by a woman he has in some stable matching. */
  ghost predicate Optimistic(prefs: seq<seq<int>>, ranks: seq<seq<int>>, s: State)
    requires Profile(prefs, ranks) && Shaped(s, |prefs|)
  {
    forall mu, m, k {:trigger Stable(prefs, ranks, mu), prefs[m][k]} ::
      Stable(prefs, ranks, mu) && 0 <= m < |prefs| && 0 <= k < Rejections(s, m) ==> mu[m] != prefs[m][k]
  }

  ghost predicate Sound(prefs: seq<seq<int>>, ranks: seq<seq<int>>, s: State) {
    && Lists(prefs, ranks)
    && Shaped(s, |prefs|)
    && Couples(s.wives, s.husbands, |prefs|)
    && FreeList(s, |prefs|)
    && Progressed(prefs, ranks, s)
  }

  ghost predicate Inv(prefs: seq<seq<int>>, ranks: seq<seq<int>>, s: State) {
    Profile(prefs, ranks) && Sound(prefs, ranks, s) && Optimistic(prefs, ranks, s)
  }

  // ----- One proposal -----

  /** What a proposal amounts to: an unengaged woman accepts; an engaged one keeps the better of the two men. */
  function Proposed(ranks: seq<seq<int>>, s: State, man: int, woman: int): State
    requires 0 <= woman < |s.husbands| && 0 <= man < |s.wives|
    requires woman < |ranks| && |ranks[woman]| == |s.wives|
    requires s.husbands[woman].Full? ==> 0 <= s.husbands[woman].value < |s.wives|
  {
    if s.husbands[woman].Empty? then
      s.(wives := s.wives[man := Full(woman)], husbands := s.husbands[woman := Full(man)])
    else
      var fiance := s.husbands[woman].value;
      if ranks[woman][man] < ranks[woman][fiance] then
        s.(wives := s.wives[fiance := Empty][man := Full(woman)],
           husbands := s.husbands[woman := Full(man)],
           free := s.free + [fiance])
      else
        s.(free := s.free + [man])
  }

  /** The man on top of the stack is unengaged and has a woman left to ask,
      who is free or engaged to another man. */
  ghost predicate CanAsk(prefs: seq<seq<int>>, s: State)
    requires |s.wives| == |s.husbands| == |s.propose| == |prefs|
  {
    && |s.free| > 0
    && var man := s.free[|s.free| - 1];
    && 0 <= man < |prefs| && s.wives[man].Empty? && 0 <= s.propose[man] < |prefs[man]|
    && var woman := prefs[man][s.propose[man]];
    && 0 <= woman < |prefs|
    && (s.husbands[woman].Full? ==> 0 <= s.husbands[woman].value < |prefs| && s.husbands[woman].value != man)
  }

  /** One iteration: the man on top of the stack asks the next woman on his list. */
  function Round(prefs: seq<seq<int>>, ranks: seq<seq<int>>, s: State): State
    requires Lists(prefs, ranks) && Shaped(s, |prefs|) && CanAsk(prefs, s)
  {
    var man := s.free[|s.free| - 1];
    var s1 := s.(free := s.free[..|s.free| - 1], propose := s.propose[man := s.propose[man] + 1]);
    Proposed(ranks, s1, man, prefs[man][s.propose[man]])
  }

  lemma RoundProposes(prefs: seq<seq<int>>, ranks: seq<seq<int>>, s: State, s1: State)
    requires Lists(prefs, ranks) && Shaped(s, |prefs|) && CanAsk(prefs, s)
    requires var man := s.free[|s.free| - 1];
             s1 == s.(free := s.free[..|s.free| - 1], propose := s.propose[man := s.propose[man] + 1])
    ensures var man := s.free[|s.free| - 1];
            && 0 <= prefs[man][s.propose[man]] < |prefs|
            && Round(prefs, ranks, s) == Proposed(ranks, s1, man, prefs[man][s.propose[man]])
  {
  }

  ghost function Sum(s: seq<int>): int {
    if s == [] then 0 else Sum(s[..|s| - 1]) + s[|s| - 1]
  }

  lemma {:induction false} SumUpdate(s: seq<int>, i: int, x: int)
    requires 0 <= i < |s|
    ensures Sum(s[i := x]) == Sum(s) - s[i] + x
  {
    var t := s[i := x];
    if i == |s| - 1 {
      assert t[..|s| - 1] == s[..|s| - 1];
    } else {
      SumUpdate(s[..|s| - 1], i, x);
      assert t[..|s| - 1] == s[..|s| - 1][i := x];
    }
  }

  lemma {:induction false} SumBound(s: seq<int>, n: nat)
    requires forall i :: 0 <= i < |s| ==> 0 <= s[i] <= n
    ensures 0 <= Sum(s) <= |s| * n
  {
    if s != [] {
      SumBound(s[..|s| - 1], n);
      assert |s| * n == (|s| - 1) * n + n;
    }
  }

  /** A man without a wife has not come to the end of his list: were everybody on it engaged,
      every man would have a wife. */
  lemma NeverRunsOut(prefs: seq<seq<int>>, ranks: seq<seq<int>>, s: State, man: int)
    requires Profile(prefs, ranks) && Sound(prefs, ranks, s) && 0 <= man < |prefs| && s.wives[man].Empty?
    ensures s.propose[man] < |prefs|
  {
    var n := |prefs|;
    if s.propose[man] == n {
      forall w | 0 <= w < n ensures s.husbands[w].Full? {
        Pigeonhole(prefs[man], n, w);
        var k :| 0 <= k < n && prefs[man][k] == w;
        assert Satisfied(ranks, s, man, prefs[man][k]);
      }
      var grooms := seq(n, w requires 0 <= w < n => s.husbands[w].value);
      Pigeonhole(grooms, n, man);
      assert false;
    }
  }

  lemma FreeManCanAsk(prefs: seq<seq<int>>, ranks: seq<seq<int>>, s: State)
    requires Profile(prefs, ranks) && Sound(prefs, ranks, s) && |s.free| > 0
    ensures CanAsk(prefs, s)
  {
    var man := s.free[|s.free| - 1];
    assert man in s.free;
    NeverRunsOut(prefs, ranks, s, man);
  }

  /** The three ways a proposal can end: accepted at once, accepted in place of another man, refused. */
  ghost predicate Outcome(s: State, t: State, man: int, woman: int, n: nat) {
    && |s.wives| == |s.husbands| == |t.wives| == |t.husbands| == n && 0 <= man < n && 0 <= woman < n
    && s.wives[man].Empty? && s.free != [] && s.free[|s.free| - 1] == man
    && var rest := s.free[..|s.free| - 1];
    || (s.husbands[woman].Empty? && t.wives == s.wives[man := Full(woman)] &&
        t.husbands == s.husbands[woman := Full(man)] && t.free == rest)
    || (s.husbands[woman].Full? && 0 <= s.husbands[woman].value < n && s.husbands[woman].value != man
        && t.wives == s.wives[s.husbands[woman].value := Empty][man := Full(woman)]
        && t.husbands == s.husbands[woman := Full(man)] && t.free == rest + [s.husbands[woman].value])
    || (t.wives == s.wives && t.husbands == s.husbands && t.free == s.free)
  }

  lemma RoundOutcome(prefs: seq<seq<int>>, ranks: seq<seq<int>>, s: State)
    requires Lists(prefs, ranks) && Shaped(s, |prefs|) && CanAsk(prefs, s)
    ensures var man := s.free[|s.free| - 1];
            Outcome(s, Round(prefs, ranks, s), man, prefs[man][s.propose[man]], |prefs|)
  {
    assert s.free[..|s.free| - 1] + [s.free[|s.free| - 1]] == s.free;
  }

  lemma CouplesStep(s: State, t: State, man: int, woman: int, n: nat)
    requires Outcome(s, t, man, woman, n) && Couples(s.wives, s.husbands, n)
    ensures Couples(t.wives, t.husbands, n)
  {
    if t.husbands != s.husbands {
      forall m | 0 <= m < n && t.wives[m].Full?
        ensures 0 <= t.wives[m].value < n && t.husbands[t.wives[m].value] == Full(m)
      {
        assert m == man || (t.wives[m] == s.wives[m] && s.wives[m].value != woman);
      }
      forall w | 0 <= w < n && t.husbands[w].Full?
        ensures 0 <= t.husbands[w].value < n && t.wives[t.husbands[w].value] == Full(w)
      {
        assert w == woman || t.husbands[w] == s.husbands[w];
      }
    }
  }

  lemma FreeListStep(s: State, t: State, man: int, woman: int, n: nat)
    requires Outcome(s, t, man, woman, n) && Couples(s.wives, s.husbands, n) && Shaped(s, n) && Shaped(t, n) &&
      FreeList(s, n)
    ensures FreeList(t, n)
  {
    Popped(s.free);
    var rest := s.free[..|s.free| - 1];
    if s.husbands[woman].Full? && t.free == rest + [s.husbands[woman].value] {
      assert s.wives[s.husbands[woman].value].Full?;
    }
    forall m | 0 <= m < n ensures m in t.free <==> t.wives[m].Empty? {
      assert m in s.free <==> s.wives[m].Empty?;
    }
  }

  lemma RoundCouples(prefs: seq<seq<int>>, ranks: seq<seq<int>>, s: State)
    requires Lists(prefs, ranks) && Shaped(s, |prefs|) && CanAsk(prefs, s) && Couples(s.wives, s.husbands, |prefs|)
    ensures var t := Round(prefs, ranks, s); Shaped(t, |prefs|) && Couples(t.wives, t.husbands, |prefs|)
  {
    var man := s.free[|s.free| - 1];
    RoundOutcome(prefs, ranks, s);
    CouplesStep(s, Round(prefs, ranks, s), man, prefs[man][s.propose[man]], |prefs|);
  }

  lemma RoundFreeList(prefs: seq<seq<int>>, ranks: seq<seq<int>>, s: State)
    requires Lists(prefs, ranks) && Shaped(s, |prefs|) && CanAsk(prefs, s) && Couples(s.wives, s.husbands, |prefs|) &&
      FreeList(s, |prefs|)
    ensures Shaped(Round(prefs, ranks, s), |prefs|) && FreeList(Round(prefs, ranks, s), |prefs|)
  {
    var man := s.free[|s.free| - 1];
    RoundOutcome(prefs, ranks, s);
    FreeListStep(s, Round(prefs, ranks, s), man, prefs[man][s.propose[man]], |prefs|);
  }

  lemma Popped(free: seq<int>)
    requires Distinct(free) && free != []
    ensures var rest, last := free[..|free| - 1], free[|free| - 1];
            && Distinct(rest) && last !in rest
            && (forall m :: m in free <==> m in rest || m == last)
            && (forall x :: x !in free ==> Distinct(rest + [x]))
  {
    assert free == free[..|free| - 1] + [free[|free| - 1]];
  }

  /** The man a round turns away has no stable partner in the woman who turned him away:
      the man she keeps would otherwise form a blocking pair with her. */
  lemma RejectionIsFinal(prefs: seq<seq<int>>, ranks: seq<seq<int>>, s: State, mu: seq<int>, kept: int, away: int,
                         k: int)
    requires Profile(prefs, ranks) && Stable(prefs, ranks, mu)
    requires 0 <= kept < |prefs| && 0 <= away < |prefs| && kept != away && 0 <= k < |prefs|
    requires var w := prefs[kept][k]; ranks[w][kept] <= ranks[w][away]
    requires forall i :: 0 <= i < k ==> mu[kept] != prefs[kept][i]
    ensures mu[away] != prefs[kept][k]
  {
    var w := prefs[kept][k];
    if mu[away] == w {
      Pigeonhole(prefs[kept], |prefs|, mu[kept]);
      assert false;
    }
  }

  /** No woman ever loses by a round, and the one who was asked ends up with somebody
      she likes at least as much as the man who asked. */
  lemma WomenOnlyGain(prefs: seq<seq<int>>, ranks: seq<seq<int>>, s: State, w: int)
    requires Lists(prefs, ranks) && Shaped(s, |prefs|) && CanAsk(prefs, s) && Couples(s.wives, s.husbands, |prefs|)
    requires 0 <= w < |prefs|
    ensures var man, t := s.free[|s.free| - 1], Round(prefs, ranks, s);
            && |t.husbands| == |prefs|
            && (t.husbands[w].Full? ==> 0 <= t.husbands[w].value < |prefs|)
            && (s.husbands[w].Full? ==>
                t.husbands[w].Full? && ranks[w][t.husbands[w].value] <= ranks[w][s.husbands[w].value])
            && (w == prefs[man][s.propose[man]] ==>
                t.husbands[w].Full? && ranks[w][t.husbands[w].value] <= ranks[w][man])
  {
  }

  lemma RoundLastAsked(prefs: seq<seq<int>>, ranks: seq<seq<int>>, s: State, m: int)
    requires Lists(prefs, ranks) && Shaped(s, |prefs|) && CanAsk(prefs, s)
    requires 0 <= m < |prefs| && HasLastAsked(prefs, s, m)
    ensures Shaped(Round(prefs, ranks, s), |prefs|) && HasLastAsked(prefs, Round(prefs, ranks, s), m)
  {
  }

  lemma RoundSatisfies(prefs: seq<seq<int>>, ranks: seq<seq<int>>, s: State, m: int, k: int)
    requires Lists(prefs, ranks) && Shaped(s, |prefs|) && CanAsk(prefs, s) && Couples(s.wives, s.husbands, |prefs|)
    requires Shaped(Round(prefs, ranks, s), |prefs|)
    requires 0 <= m < |prefs| && 0 <= k < Round(prefs, ranks, s).propose[m]
    requires k < s.propose[m] ==> Satisfied(ranks, s, m, prefs[m][k])
    ensures Satisfied(ranks, Round(prefs, ranks, s), m, prefs[m][k])
  {
    WomenOnlyGain(prefs, ranks, s, prefs[m][k]);
  }

  lemma RoundProgressed(prefs: seq<seq<int>>, ranks: seq<seq<int>>, s: State)
    requires Lists(prefs, ranks) && Shaped(s, |prefs|) && Couples(s.wives, s.husbands, |prefs|) && CanAsk(prefs, s)
    requires Progressed(prefs, ranks, s)
    requires Shaped(Round(prefs, ranks, s), |prefs|)
    ensures Progressed(prefs, ranks, Round(prefs, ranks, s))
  {
    var t := Round(prefs, ranks, s);
    forall m | 0 <= m < |prefs| ensures HasLastAsked(prefs, t, m) {
      RoundLastAsked(prefs, ranks, s, m);
    }
    forall m, k | 0 <= m < |prefs| && 0 <= k < t.propose[m]
      ensures Satisfied(ranks, t, m, prefs[m][k])
    {
      RoundSatisfies(prefs, ranks, s, m, k);
    }
  }

  /** A man turned away in this round is one the woman he wants likes less than the man she keeps. */
  lemma NewRejection(prefs: seq<seq<int>>, ranks: seq<seq<int>>, s: State, mu: seq<int>, m: int, k: int)
    requires Inv(prefs, ranks, s) && CanAsk(prefs, s) && Stable(prefs, ranks, mu) && 0 <= m < |prefs|
    requires Shaped(Round(prefs, ranks, s), |prefs|)
    requires 0 <= k < |prefs| && Rejections(s, m) <= k < Rejections(Round(prefs, ranks, s), m)
    ensures mu[m] != prefs[m][k]
  {
    var kept, at := WhoWasKept(prefs, ranks, s, m, k);
    RejectionIsFinal(prefs, ranks, s, mu, kept, m, at);
  }

  /** The man a proposal turns down, and the one it keeps. */
  ghost function TurnedDown(ranks: seq<seq<int>>, man: int, fiance: int, woman: int): int
    requires 0 <= woman < |ranks| && 0 <= man < |ranks[woman]| && 0 <= fiance < |ranks[woman]|
  {
    if ranks[woman][man] < ranks[woman][fiance] then fiance else man
  }

  /** A round turns down one man if the woman asked is engaged, and nobody if she is not. */
  lemma RoundRejects(prefs: seq<seq<int>>, ranks: seq<seq<int>>, s: State, m: int)
    requires Sound(prefs, ranks, s) && CanAsk(prefs, s) && 0 <= m < |prefs| && Shaped(Round(prefs, ranks, s), |prefs|)
    ensures var man := s.free[|s.free| - 1];
            var woman := prefs[man][s.propose[man]];
            && 0 <= woman < |prefs| && s.wives[man].Empty?
            && (s.husbands[woman].Empty? ==> Rejections(Round(prefs, ranks, s), m) == Rejections(s, m))
            && (s.husbands[woman].Full? ==>
                  var fiance := s.husbands[woman].value;
                  && 0 <= fiance < |prefs| && fiance != man && s.wives[fiance] == Full(woman)
                  && Rejections(Round(prefs, ranks, s), m) ==
                     Rejections(s, m) + if m == TurnedDown(ranks, man, fiance, woman) then 1 else 0)
  {
    hide Progressed;
    var man := s.free[|s.free| - 1];
    assert man in s.free;
  }

  /** The man turned away loses to one the woman likes at least as much, who came to her with his next proposal. */
  lemma WhoWasKept(prefs: seq<seq<int>>, ranks: seq<seq<int>>, s: State, m: int, k: int) returns (kept: int, at: int)
    requires Profile(prefs, ranks) && Sound(prefs, ranks, s) && CanAsk(prefs, s) && 0 <= m < |prefs|
    requires Shaped(Round(prefs, ranks, s), |prefs|)
    requires 0 <= k < |prefs| && Rejections(s, m) <= k < Rejections(Round(prefs, ranks, s), m)
    ensures 0 <= kept < |prefs| && kept != m && 0 <= at < |prefs| && at == Rejections(s, kept)
    ensures prefs[kept][at] == prefs[m][k] && 0 <= prefs[m][k] < |prefs| &&
      ranks[prefs[m][k]][kept] <= ranks[prefs[m][k]][m]
  {
    RoundRejects(prefs, ranks, s, m);
    var man := s.free[|s.free| - 1];
    var q := s.propose[man];
    var woman := prefs[man][q];
    var fiance := s.husbands[woman].value;
    hide Round, Couples, FreeList, Profile;
    kept := if ranks[woman][man] < ranks[woman][fiance] then man else fiance;
    assert HasLastAsked(prefs, s, fiance);
    assert m != kept && prefs[m][k] == woman;
    at := if kept == man then q else s.propose[fiance] - 1;
  }

  lemma RoundOptimistic(prefs: seq<seq<int>>, ranks: seq<seq<int>>, s: State)
    requires Inv(prefs, ranks, s) && CanAsk(prefs, s)
    requires Shaped(Round(prefs, ranks, s), |prefs|)
    ensures Optimistic(prefs, ranks, Round(prefs, ranks, s))
  {
    var t := Round(prefs, ranks, s);
    forall mu, m, k | Stable(prefs, ranks, mu) && 0 <= m < |prefs| && 0 <= k < Rejections(t, m)
      ensures mu[m] != prefs[m][k]
    {
      if k >= Rejections(s, m) {
        NewRejection(prefs, ranks, s, mu, m, k);
      }
    }
  }

  lemma RoundSound(prefs: seq<seq<int>>, ranks: seq<seq<int>>, s: State)
    requires Sound(prefs, ranks, s) && CanAsk(prefs, s)
    ensures Sound(prefs, ranks, Round(prefs, ranks, s))
  {
    RoundCouples(prefs, ranks, s);
    RoundFreeList(prefs, ranks, s);
    RoundProgressed(prefs, ranks, s);
  }

  lemma RoundAsksOnce(prefs: seq<seq<int>>, ranks: seq<seq<int>>, s: State)
    requires Lists(prefs, ranks) && Shaped(s, |prefs|) && CanAsk(prefs, s)
    ensures Sum(Round(prefs, ranks, s).propose) == Sum(s.propose) + 1
  {
    var man := s.free[|s.free| - 1];
    SumUpdate(s.propose, man, s.propose[man] + 1);
  }

  /** Every proposal keeps the whole invariant and moves exactly one man one place down his list. */
  lemma RoundKeepsInv(prefs: seq<seq<int>>, ranks: seq<seq<int>>, s: State)
    requires Inv(prefs, ranks, s) && |s.free| > 0
    ensures CanAsk(prefs, s) && Inv(prefs, ranks, Round(prefs, ranks, s))
    ensures Sum(Round(prefs, ranks, s).propose) == Sum(s.propose) + 1
  {
    FreeManCanAsk(prefs, ranks, s);
    RoundSound(prefs, ranks, s);
    RoundOptimistic(prefs, ranks, s);
    RoundAsksOnce(prefs, ranks, s);
  }

  // ----- The end of a run -----

  /** No stable matching gives any man a wife he would rather have than the one mu gives him. */
  ghost predicate ManOptimal(prefs: seq<seq<int>>, ranks: seq<seq<int>>, mu: seq<int>)
    requires Profile(prefs, ranks) && |mu| == |prefs|
  {
    forall nu, m {:trigger Stable(prefs, ranks, nu), prefs[m]} ::
      Stable(prefs, ranks, nu) && 0 <= m < |prefs| ==> !ManPrefers(prefs, mu, m, nu[m])
  }

  ghost function Wives(s: State): seq<int>
    requires forall m :: 0 <= m < |s.wives| ==> s.wives[m].Full?
  {
    seq(|s.wives|, m requires 0 <= m < |s.wives| => s.wives[m].value)
  }

  lemma NobodyFree(prefs: seq<seq<int>>, ranks: seq<seq<int>>, s: State)
    requires Sound(prefs, ranks, s) && s.free == []
    ensures forall m :: 0 <= m < |prefs| ==>
                          && s.wives[m].Full? && s.propose[m] > 0 && s.wives[m].value == prefs[m][s.propose[m] - 1]
                          && 0 <= s.wives[m].value < |prefs| && s.husbands[s.wives[m].value] == Full(m)
  {
    forall m | 0 <= m < |prefs| ensures s.wives[m].Full? && HasLastAsked(prefs, s, m) {
      assert m !in s.free && HasLastAsked(prefs, s, m);
    }
  }

  /** A woman m prefers to his wife has been asked by m, so she likes the man she has better. */
  lemma NoBlockingPair(prefs: seq<seq<int>>, ranks: seq<seq<int>>, s: State, m: int, h: int, i: int)
    requires Profile(prefs, ranks) && Sound(prefs, ranks, s) && s.free == []
    requires 0 <= m < |prefs| && 0 <= h < |prefs| && s.wives[h].Full? && 0 <= i < s.propose[m] - 1
    requires prefs[m][i] == s.wives[h].value
    ensures 0 <= s.wives[h].value < |prefs| && ranks[s.wives[h].value][h] < ranks[s.wives[h].value][m]
  {
    NobodyFree(prefs, ranks, s);
    var w := s.wives[h].value;
    assert s.husbands[w] == Full(h) && Satisfied(ranks, s, m, prefs[m][i]);
    assert m != h;
  }

  lemma EmptyStackIsStable(prefs: seq<seq<int>>, ranks: seq<seq<int>>, s: State)
    requires Profile(prefs, ranks) && Sound(prefs, ranks, s) && s.free == []
    ensures forall m :: 0 <= m < |prefs| ==> s.wives[m].Full?
    ensures Stable(prefs, ranks, Wives(s))
  {
    NobodyFree(prefs, ranks, s);
    var n, mu := |prefs|, Wives(s);
    forall i, j | 0 <= i < j < n ensures mu[i] != mu[j] {
      assert s.husbands[mu[i]] == Full(i) && s.husbands[mu[j]] == Full(j);
    }
    forall m, h | 0 <= m < n && 0 <= h < n && ManPrefers(prefs, mu, m, mu[h])
      ensures ranks[mu[h]][h] < ranks[mu[h]][m]
    {
      LikesHerHusband(prefs, ranks, s, m, h);
    }
  }

  lemma LikesHerHusband(prefs: seq<seq<int>>, ranks: seq<seq<int>>, s: State, m: int, h: int)
    requires Profile(prefs, ranks) && Sound(prefs, ranks, s) && s.free == []
    requires 0 <= m < |prefs| && 0 <= h < |prefs|
    requires forall m :: 0 <= m < |prefs| ==> s.wives[m].Full?
    requires ManPrefers(prefs, Wives(s), m, Wives(s)[h])
    ensures 0 <= s.wives[h].value < |prefs| && ranks[s.wives[h].value][h] < ranks[s.wives[h].value][m]
  {
    NobodyFree(prefs, ranks, s);
    var i, j :| 0 <= i < j < |prefs| && prefs[m][i] == s.wives[h].value && prefs[m][j] == s.wives[m].value;
    assert j == s.propose[m] - 1;
    NoBlockingPair(prefs, ranks, s, m, h, i);
  }

  lemma EmptyStackIsManOptimal(prefs: seq<seq<int>>, ranks: seq<seq<int>>, s: State)
    requires Inv(prefs, ranks, s) && s.free == []
    requires forall m :: 0 <= m < |prefs| ==> s.wives[m].Full?
    ensures ManOptimal(prefs, ranks, Wives(s))
  {
    NobodyFree(prefs, ranks, s);
    forall nu, m | Stable(prefs, ranks, nu) && 0 <= m < |prefs|
      ensures !ManPrefers(prefs, Wives(s), m, nu[m])
    {
      assert forall i {:trigger prefs[m][i]} :: 0 <= i < s.propose[m] - 1 ==>
        i < Rejections(s, m) && prefs[m][i] != nu[m];
    }
  }

  // ----- The oblivious program -----

  /** OStack: an oblivious stack; conditional pushes write only if they are for real. */
  class OStack {
    var ram: seq<Cell<int>>
    var size: int

    ghost predicate Valid() reads this {
      0 <= size <= |ram| && forall i :: 0 <= i < size ==> ram[i].Full?
    }

    ghost function Contents(): (s: seq<int>)
      requires Valid()
      reads this
    {
      Values(ram[..size])
    }

    static ghost function Values(cells: seq<Cell<int>>): seq<int>
      requires forall i :: 0 <= i < |cells| ==> cells[i].Full?
    {
      seq(|cells|, i requires 0 <= i < |cells| => cells[i].value)
    }

    constructor (n: nat)
      ensures Valid() && Contents() == [] && |ram| == n
    {
      ram := seq(n, _ => Empty);
      size := 0;
    }

    method Append(item: int, forReal: bool)
      requires Valid() && (forReal ==> size < |ram|)
      modifies this
      ensures Valid() && |ram| == old(|ram|)
      ensures Contents() == if forReal then old(Contents()) + [item] else old(Contents())
    {
      ram := Access(ram, size, item, forReal);
      size := size + if forReal then 1 else 0;
    }

    method Pop() returns (item: int)
      requires Valid() && Contents() != []
      modifies this
      ensures Valid() && |ram| == old(|ram|)
      ensures old(Contents()) == Contents() + [item]
    {
      size := size - 1;
      item := Get(ram, size, 0);
    }
  }

  class Matchmaker {
    const n: nat
    const prefs: seq<seq<int>>
    const ranks: seq<seq<int>>
    var wives: seq<Cell<int>>
    var husbands: seq<Cell<int>>
    var proposals: seq<Cell<int>>
    const unengaged: OStack

    ghost predicate Valid() reads this, unengaged {
      && unengaged.Valid()
      && Profile(prefs, ranks) && |prefs| == n
      && |wives| == |husbands| == |proposals| == n == |unengaged.ram|
    }

    ghost function Snapshot(): State
      requires unengaged.Valid()
      reads this, unengaged
    {
      State(wives, husbands, seq(|proposals|, i requires 0 <= i < |proposals| reads this => Get(proposals, i, 0)),
            unengaged.Contents())
    }

    constructor (prefs: seq<seq<int>>, ranks: seq<seq<int>>)
      requires Profile(prefs, ranks)
      ensures Valid() && fresh(unengaged) && this.prefs == prefs && this.ranks == ranks
    {
      this.n := |prefs|;
      this.prefs := prefs;
      this.ranks := ranks;
      wives := seq(|prefs|, _ => Empty);
      husbands := seq(|prefs|, _ => Empty);
      proposals := seq(|prefs|, _ => Empty);
      unengaged := new OStack(|prefs|);
    }

    method Engage(man: int, woman: int, forReal: bool)
      requires forReal ==> 0 <= man < |wives| && 0 <= woman < |husbands|
      modifies this`wives, this`husbands
      ensures wives == if forReal then old(wives)[man := Full(woman)] else old(wives)
      ensures husbands == if forReal then old(husbands)[woman := Full(man)] else old(husbands)
    {
      wives := Access(wives, man, woman, forReal);
      husbands := Access(husbands, woman, man, forReal);
    }

    method Dump(man: int, woman: int, forReal: bool)
      requires unengaged.Valid()
      requires forReal ==> 0 <= man < |wives| && 0 <= woman < |husbands| && unengaged.size < |unengaged.ram|
      modifies this`wives, this`husbands, unengaged
      ensures unengaged.Valid() && |unengaged.ram| == old(|unengaged.ram|)
      ensures wives == if forReal then old(wives)[man := Empty] else old(wives)
      ensures husbands == if forReal then old(husbands)[woman := Empty] else old(husbands)
      ensures unengaged.Contents() == if forReal then old(unengaged.Contents()) + [man] else old(unengaged.Contents())
    {
      wives := Access(wives, man, 0, forReal, true);
      husbands := Access(husbands, woman, 0, forReal, true);
      unengaged.Append(man, forReal);
    }

    /** The oblivious proposal, which performs every update conditionally, computes Proposed. */
    method Propose(man: int, woman: int, forReal: bool)
      requires Valid() && 0 <= man < n && 0 <= woman < n
      requires forReal ==> unengaged.size < n
      requires husbands[woman].Full? ==> 0 <= husbands[woman].value < n && husbands[woman].value != man
      modifies this`wives, this`husbands, unengaged
      ensures Valid()
      ensures Snapshot() == if forReal then Proposed(ranks, old(Snapshot()), man, woman) else old(Snapshot())
    {
      var fiance, engaged := Get(husbands, woman, 0), !IsEmpty(husbands, woman);
      var rankMan := ranks[woman][man];
      var rankFiance := ranks[woman][if engaged then fiance else 0];
      var leaving := rankMan < rankFiance;
      Dump(fiance, woman, engaged && leaving && forReal);
      Engage(man, woman, !(engaged && !leaving) && forReal);
      unengaged.Append(man, engaged && !leaving && forReal);
    }

    /** Takes the next man from the stack and counts his proposal. */
    method NextMan(ghost s1: State) returns (man: int, pref: int)
      requires Valid() && Shaped(Snapshot(), n) && FreeList(Snapshot(), n) && CanAsk(prefs, Snapshot())
      requires var s := Snapshot();
               var top := s.free[|s.free| - 1];
               s1 == s.(free := s.free[..|s.free| - 1], propose := s.propose[top := s.propose[top] + 1])
      modifies this`wives, this`husbands, this`proposals, unengaged
      ensures Valid() && Snapshot() == s1
      ensures var s := old(Snapshot());
              man == s.free[|s.free| - 1] && pref == s.propose[man]
    {
      ghost var s := Snapshot();
      FreeFits(s, n);
      man := unengaged.Pop();
      assert s.free == unengaged.Contents() + [man];
      assert man == s.free[|s.free| - 1] && unengaged.Contents() == s.free[..|s.free| - 1];
      pref := Get(proposals, man, 0);
      assert pref == s.propose[man];
      proposals := Access(proposals, man, pref + 1, true);
    }

    /** One pass through the loop body: pop a man, look up his next choice, advance his counter, propose. */
    method NextProposal()
      requires Valid() && Shaped(Snapshot(), n) && Couples(wives, husbands, n) && FreeList(Snapshot(), n)
      requires CanAsk(prefs, Snapshot())
      modifies this`wives, this`husbands, this`proposals, unengaged
      ensures Valid()
      ensures Snapshot() == Round(prefs, ranks, old(Snapshot()))
    {
      ghost var s := Snapshot();
      ghost var top := s.free[|s.free| - 1];
      ghost var s1 := s.(free := s.free[..|s.free| - 1], propose := s.propose[top := s.propose[top] + 1]);
      RoundProposes(prefs, ranks, s, s1);
      var man, pref := NextMan(s1);
      Propose(man, prefs[man][pref], true);
    }

    method Init()
      requires Valid() && wives == husbands == proposals == seq(n, _ => Empty) && unengaged.Contents() == []
      modifies unengaged
      ensures Valid()
      ensures Snapshot() == State(seq(n, _ => Empty), seq(n, _ => Empty), seq(n, _ => 0), seq(n, i => i))
    {
      for i := 0 to n
        invariant Valid()
        invariant unengaged.Contents() == seq(i, j => j)
      {
        unengaged.Append(i, true);
      }
    }

    /** Runs until nobody is left on the stack. No man runs off the end of his list, there are at most
        n * n proposals, and the result is the stable matching that is best for every man. */
    method Match() returns (rounds: nat)
      requires Valid() && n > 0
      requires wives == husbands == proposals == seq(n, _ => Empty) && unengaged.Contents() == []
      modifies this, unengaged
      ensures Valid()
      ensures rounds <= n * n && rounds == Sum(Snapshot().propose)
      ensures Inv(prefs, ranks, Snapshot()) && Snapshot().free == []
      ensures forall m :: 0 <= m < n ==> wives[m].Full?
      ensures Stable(prefs, ranks, Wives(Snapshot()))
      ensures ManOptimal(prefs, ranks, Wives(Snapshot()))
    {
      Init();
      StartInv(prefs, ranks, Snapshot());
      rounds := 0;
      var again := true;
      while again
        invariant Valid()
        invariant Inv(prefs, ranks, Snapshot())
        invariant again <==> Snapshot().free != []
        invariant rounds == Sum(Snapshot().propose) <= n * n
        decreases n * n - rounds, again
      {
        RoundKeepsInv(prefs, ranks, Snapshot());
        SumBound(Round(prefs, ranks, Snapshot()).propose, n);
        rounds := rounds + 1;
        NextProposal();
        again := unengaged.size > 0;
      }
      EmptyStackIsStable(prefs, ranks, Snapshot());
      EmptyStackIsManOptimal(prefs, ranks, Snapshot());
    }
  }

  lemma StartInv(prefs: seq<seq<int>>, ranks: seq<seq<int>>, s: State)
    requires Profile(prefs, ranks)
    requires var n := |prefs|; s == State(seq(n, _ => Empty), seq(n, _ => Empty), seq(n, _ => 0), seq(n, i => i))
    ensures Inv(prefs, ranks, s) && Sum(s.propose) == 0
  {
    SumZero(s.propose);
    forall m | 0 <= m < |prefs| ensures m in s.free {
      assert s.free[m] == m;
    }
  }

  lemma FreeFits(s: State, n: nat)
    requires Shaped(s, n) && FreeList(s, n)
    ensures |s.free| <= n
  {
    DistinctFits(s.free, n);
  }

  lemma {:induction false} SumZero(s: seq<int>)
    requires forall i :: 0 <= i < |s| ==> s[i] == 0
    ensures Sum(s) == 0
  {
    if s != [] {
      SumZero(s[..|s| - 1]);
    }
  }
}
