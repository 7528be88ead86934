/** Optional values and the integer functions several modules count with. */
module Prelude {

  datatype Option<+T> = None | Some(value: T)

  function CeilDiv(a: nat, b: nat): (r: nat)
    requires b > 0
    ensures r * b >= a && (a > 0 ==> (r - 1) * b < a)
  {
    (a + b - 1) / b
  }

  function Pow2(k: nat): (p: nat)
    ensures p > 0
  {
    if k == 0 then 1 else 2 * Pow2(k - 1)
  }

  /** `n` times `w`, by addition. */
  function Times(n: nat, w: nat): nat {
    if n == 0 then 0 else Times(n - 1, w) + w
  }

  lemma {:induction false} TimesIsProduct(n: nat, w: nat)
    ensures Times(n, w) == n * w
  {
    if n > 0 {
      TimesIsProduct(n - 1, w);
      assert n * w == (n - 1) * w + w;
    }
  }

  lemma {:induction false} TimesGrows(n: nat, k: nat, w: nat)
    requires n <= k
    ensures Times(n, w) <= Times(k, w)
    decreases k - n
  {
    if n < k { TimesGrows(n, k - 1, w); }
  }
}
