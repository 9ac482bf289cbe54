/** The capped doubling delays both retrying services use, and what a row of them adds up to. */
module Backoff {
  import opened Seqs

  function Pow2(k: nat): (p: nat)
    ensures p >= 1
  {
    if k == 0 then 1 else 2 * Pow2(k - 1)
  }

  /** Math.min(base * Math.pow(2, k), cap). */
  function Delay(base: nat, cap: nat, k: nat): nat {
    if base * Pow2(k) <= cap then base * Pow2(k) else cap
  }

  /** The delays armed one after another with no success in between. */
  predicate BackoffRow(delays: seq<nat>, base: nat, cap: nat) {
    forall k :: 0 <= k < |delays| ==> delays[k] == Delay(base, cap, k)
  }

  lemma {:induction false} Pow2Monotone(j: nat, k: nat)
    requires j <= k
    ensures Pow2(j) <= Pow2(k)
    decreases k
  {
    if j < k {
      Pow2Monotone(j, k - 1);
    }
  }

  lemma DelayMonotone(base: nat, cap: nat, j: nat, k: nat)
    requires j <= k
    ensures Delay(base, cap, j) <= Delay(base, cap, k) <= cap
  {
    Pow2Monotone(j, k);
    assert base * Pow2(j) <= base * Pow2(k);
  }

  /** The delays of a row never shrink. */
  lemma RowMonotone(delays: seq<nat>, base: nat, cap: nat)
    requires BackoffRow(delays, base, cap)
    ensures forall j, k :: 0 <= j <= k < |delays| ==> delays[j] <= delays[k]
  {
    forall j, k | 0 <= j <= k < |delays| ensures delays[j] <= delays[k] {
      DelayMonotone(base, cap, j, k);
    }
  }

  lemma Scaled(base: nat, j: nat, k: nat)
    requires j <= k
    ensures base * Pow2(j) <= base * Pow2(k)
  {
    Pow2Monotone(j, k);
  }

  lemma Doubled(base: nat, p: nat)
    ensures base * (p - 1) + base * p == base * (2 * p - 1)
  {
  }

  lemma OneMore(cap: nat, n: nat)
    ensures cap * n + cap == cap * (n + 1)
  {
  }

  /** With m the first delay that reaches the cap, n delays sum to base * (2^n - 1) up to m of them,
      and every further one adds the cap. */
  lemma {:induction false} RowSum(delays: seq<nat>, base: nat, cap: nat, m: nat)
    requires BackoffRow(delays, base, cap)
    requires base * Pow2(m) >= cap
    requires m > 0 ==> base * Pow2(m - 1) <= cap
    ensures Sum(delays) == if |delays| <= m then base * (Pow2(|delays|) - 1)
                           else base * (Pow2(m) - 1) + cap * (|delays| - m)
    decreases |delays|
  {
    if delays != [] {
      var n := |delays| - 1;
      RowSum(delays[..n], base, cap, m);
      if n < m {
        Scaled(base, n, m - 1);
        Doubled(base, Pow2(n));
      } else {
        Scaled(base, m, n);
        OneMore(cap, n - m);
      }
    }
  }
}
