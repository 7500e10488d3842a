/** What the averaging helpers share: a sum over the labels `1..n`, and the
    division of a `double` total by a count converted to `double`. */
module Averages {

  /** The value `total / (double)n` prints. The totals divided here are sums
      of counts and sizes over an empty range when the count is zero, so the
      only non-finite outcome is `0.0/0.0`, which is NaN. */
  datatype Average = Mean(value: real) | NaN

  /** `total / ((double)n)`. */
  function Divide(total: real, n: nat): (a: Average)
    requires n == 0 ==> total == 0.0
    ensures a.NaN? <==> n == 0
    ensures a.Mean? ==> a.value * n as real == total
  {
    if n == 0 then NaN else Mean(total / n as real)
  }

  /** A finite average is the only value that scales back to the total. */
  lemma DivideUnique(total: real, n: nat, v: real)
    requires n > 0
    ensures v * n as real == total <==> Divide(total, n) == Mean(v)
  {
    if v * n as real == total {
      assert v == total / n as real;
    }
  }

  /** `f(1) + f(2) + ... + f(n)`, added in that order. */
  function LabelSum(f: nat -> real, n: nat): real
  {
    if n == 0 then 0.0 else LabelSum(f, n - 1) + f(n)
  }

  /** The sum looks at the labels `1..n` only: label `0` and labels above `n`
      never enter it. */
  lemma {:induction false} LabelSumReadsLabels(f: nat -> real, g: nat -> real, n: nat)
    requires forall i :: 1 <= i <= n ==> f(i) == g(i)
    ensures LabelSum(f, n) == LabelSum(g, n)
  {
    if n > 0 {
      LabelSumReadsLabels(f, g, n - 1);
    }
  }

  /** Summing non-negative terms gives a non-negative total that grows with `n`. */
  lemma {:induction false} LabelSumMonotone(f: nat -> real, m: nat, n: nat)
    requires forall i :: 1 <= i <= n ==> f(i) >= 0.0
    requires m <= n
    ensures 0.0 <= LabelSum(f, m) <= LabelSum(f, n)
    decreases n
  {
    if m < n {
      LabelSumMonotone(f, m, n - 1);
    } else if n > 0 {
      LabelSumMonotone(f, n - 1, n - 1);
    }
  }
}
