/** Powers of two. */
module Powers {
  function Pow2(k: nat): (p: nat)
    ensures p > 0
  {
    if k == 0 then 1 else 2 * Pow2(k - 1)
  }

  lemma {:induction false} Pow2Grows(k: nat, l: nat)
    requires k <= l
    ensures Pow2(k) <= Pow2(l) && (k < l ==> Pow2(k) < Pow2(l))
    decreases l
  {
    if k < l {
      Pow2Grows(k, l - 1);
    }
  }

  /** The logarithm to base 2, rounded up. */
  function CeilLog2(n: nat): (m: nat)
    requires n > 0
    ensures n <= Pow2(m) && (m > 0 ==> Pow2(m - 1) < n)
  {
    if n == 1 then 0 else 1 + CeilLog2((n + 1) / 2)
  }

  lemma {:induction false} Pow2Splits(a: nat, b: nat)
    ensures Pow2(a + b) == Pow2(b) * Pow2(a)
  {
    if a > 0 {
      Pow2Splits(a - 1, b);
      assert Pow2(b) * (2 * Pow2(a - 1)) == 2 * (Pow2(b) * Pow2(a - 1));
    }
  }
}
