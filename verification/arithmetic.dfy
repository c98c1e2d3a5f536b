/** Powers of two, saturating sums, and division with remainder. */
module Arithmetic {
  function Power(n: nat): (p: nat)
    ensures p >= 1
  {
    if n == 0 then 1 else 2 * Power(n - 1)
  }

  /** Addition that stops at the largest value of its width. */
  function SatAdd(a: nat, b: nat, maximum: nat): nat { if a + b < maximum then a + b else maximum }

  /** How many whole steps of a size fit, and what is left. */
  function Steps(d: nat, size: nat): nat
    requires size >= 1
  {
    d / size
  }

  function Leftover(d: nat, size: nat): nat
    requires size >= 1
  {
    d % size
  }

  lemma StepsAndLeftover(d: nat, size: nat)
    requires size >= 1
    ensures d == Steps(d, size) * size + Leftover(d, size) && Leftover(d, size) < size
  {
  }

  lemma OneStepMore(k: nat, size: nat)
    ensures (k + 1) * size == k * size + size
  {
  }

  lemma MoreSteps(a: nat, b: nat, size: nat)
    requires a <= b
    ensures a * size <= b * size
  {
    assert b * size == a * size + (b - a) * size;
  }

  lemma StepsBelow(d: nat, q: nat, p: nat, size: nat)
    requires d < q * size + size && p * size <= d
    ensures p <= q
  {
    if p > q {
      MoreSteps(q + 1, p, size);
      OneStepMore(q, size);
    }
  }

  /** Division with remainder is determined by its equation. */
  lemma StepsAre(d: nat, q: nat, size: nat)
    requires size >= 1 && q * size <= d < q * size + size
    ensures Steps(d, size) == q && Leftover(d, size) == d - q * size
  {
    StepsAndLeftover(d, size);
    hide Steps, Leftover;
    StepsBelow(d, q, Steps(d, size), size);
    StepsBelow(d, Steps(d, size), q, size);
  }

  lemma StepsAtMost(d: nat, n: nat, size: nat)
    requires size >= 1
    ensures Steps(d, size) < n <==> d < n * size
  {
    StepsAndLeftover(d, size);
    hide Steps, Leftover;
    if Steps(d, size) < n {
      MoreSteps(Steps(d, size) + 1, n, size);
      OneStepMore(Steps(d, size), size);
    } else {
      MoreSteps(n, Steps(d, size), size);
    }
  }

  /** Whole steps do not change what is left. */
  lemma LeftoverAfterSteps(d: nat, q: nat, size: nat)
    requires size >= 1
    ensures Leftover(d + q * size, size) == Leftover(d, size)
  {
    StepsAndLeftover(d, size);
    hide Steps, Leftover;
    var p := Steps(d, size);
    assert (p + q) * size == p * size + q * size;
    StepsAre(d + q * size, p + q, size);
  }
}
