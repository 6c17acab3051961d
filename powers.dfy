/**
 * Integer replacements for `Math.pow(2, e)` and `Math.floor(Math.log2(n))`,
 * and for the doubling loop that finds the smallest power of two not below n.
 */
module Powers {

  function Pow2(e: nat): (p: nat)
    ensures p >= 1
  {
    if e == 0 then 1 else 2 * Pow2(e - 1)
  }

  lemma {:induction false} Pow2Monotone(a: nat, b: nat)
    ensures a <= b <==> Pow2(a) <= Pow2(b)
  {
    if a > 0 && b > 0 {
      Pow2Monotone(a - 1, b - 1);
    } else if a == 0 && b > 0 {
      Pow2Monotone(0, b - 1);
    } else if a > 0 && b == 0 {
      Pow2Monotone(a - 1, 0);
    }
  }

  /** `Math.floor(Math.log2(n))` for n >= 1. */
  function FloorLog2(n: nat): nat
    requires n >= 1
  {
    if n < 2 then 0 else 1 + FloorLog2(n / 2)
  }

  /** The exponent of the smallest power of two that is at least n. */
  function CeilLog2(n: nat): nat
    requires n >= 1
  {
    if n <= 1 then 0 else 1 + CeilLog2((n + 1) / 2)
  }

  /** FloorLog2(n) is the largest exponent whose power of two does not exceed n. */
  lemma {:induction false} FloorLog2Spec(n: nat, e: nat)
    requires n >= 1
    ensures Pow2(e) <= n <==> e <= FloorLog2(n)
  {
    if n >= 2 && e >= 1 {
      FloorLog2Spec(n / 2, e - 1);
    } else if n < 2 && e >= 1 {
      Pow2Monotone(1, e);
    }
  }

  /** CeilLog2(n) is the smallest exponent whose power of two reaches n. */
  lemma {:induction false} CeilLog2Spec(n: nat, e: nat)
    requires n >= 1
    ensures n <= Pow2(e) <==> CeilLog2(n) <= e
  {
    if n >= 2 && e >= 1 {
      CeilLog2Spec((n + 1) / 2, e - 1);
    }
  }

  /** The smallest power of two that is at least n. */
  function CeilPow2(n: nat): (k: nat)
    requires n >= 1
    ensures n <= k < 2 * n
  {
    CeilLog2Spec(n, CeilLog2(n));
    if CeilLog2(n) > 0 then
      CeilLog2Spec(n, CeilLog2(n) - 1);
      Pow2(CeilLog2(n))
    else
      Pow2(CeilLog2(n))
  }

  /** The largest power of two that does not exceed n: `Math.pow(2, Math.floor(Math.log2(n)))`. */
  function FloorPow2(n: nat): (p: nat)
    requires n >= 1
    ensures p <= n < 2 * p
  {
    FloorLog2Spec(n, FloorLog2(n));
    FloorLog2Spec(n, FloorLog2(n) + 1);
    Pow2(FloorLog2(n))
  }

  predicate IsPow2(n: nat) {
    n >= 1 && FloorPow2(n) == n
  }

  /** Off a power of two, the two bracketing powers are consecutive. */
  lemma CeilIsTwiceFloor(n: nat)
    requires n >= 1 && !IsPow2(n)
    ensures CeilPow2(n) == 2 * FloorPow2(n) && CeilLog2(n) == FloorLog2(n) + 1
  {
    FloorLog2Spec(n, FloorLog2(n) + 1);
    CeilLog2Spec(n, FloorLog2(n) + 1);
    CeilLog2Spec(n, FloorLog2(n));
  }

  lemma CeilOfPow2(n: nat)
    requires IsPow2(n)
    ensures CeilPow2(n) == n
  {
    CeilLog2Spec(n, FloorLog2(n));
    if CeilLog2(n) < FloorLog2(n) {
      Pow2Monotone(CeilLog2(n), FloorLog2(n) - 1);
      FloorLog2Spec(n, FloorLog2(n) - 1);
    }
  }

  lemma Pow2IsPow2(e: nat)
    ensures IsPow2(Pow2(e))
  {
    FloorLog2Spec(Pow2(e), e);
    FloorLog2Spec(Pow2(e), e + 1);
    Pow2Monotone(e, FloorLog2(Pow2(e)));
    Pow2Monotone(FloorLog2(Pow2(e)), e);
  }
}
