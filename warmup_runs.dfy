/** The warm-up run calculation of the benchmark timer: before timing `m`
    runs of a function, the timer performs a few untimed warm-up runs, whose
    number is derived from `m` by clamping `m / 10` into the range [2, 10]. */
module BenchmarkTimer {

  /** Java's `Integer.max`. */
  function Max(a: int, b: int): (r: int)
    ensures r >= a && r >= b
    ensures r == a || r == b
  {
    if a >= b then a else b
  }

  /** Java's `Integer.min`. */
  function Min(a: int, b: int): (r: int)
    ensures r <= a && r <= b
    ensures r == a || r == b
  {
    if a <= b then a else b
  }

  /** Java's integer division `a / d` by a positive divisor (Java's
      `Benchmark_Timer.getWarmupRuns` divides by the constant 10). Java rounds the quotient toward zero,
      unlike Dafny's Euclidean `/`: the remainder `a - q * d` is smaller than
      the divisor in magnitude and carries the sign of the dividend. */
  function JavaDiv(a: int, d: int): (q: int)
    requires d > 0
    ensures a >= 0 ==> 0 <= a - q * d < d
    ensures a <= 0 ==> -d < a - q * d <= 0
  {
    if a >= 0 then a / d else -((-a) / d)
  }

  /** The number of warm-up runs performed before `m` timed runs. */
  function GetWarmupRuns(m: int): (r: int)
    ensures 2 <= r <= 10
  {
    Max(2, Min(10, JavaDiv(m, 10)))
  }

  /** For a non-negative dividend and a positive divisor, Java's division
      agrees with Dafny's. */
  lemma JavaDivNonNegative(a: int, b: int)
    requires a >= 0 && b > 0
    ensures JavaDiv(a, b) == a / b
  {
  }

  /** Java's division by ten of a number below ten in magnitude is zero, and
      of a negative number is never positive. */
  lemma JavaDivTenOfNegative(m: int)
    requires m < 0
    ensures JavaDiv(m, 10) <= 0
    ensures m > -10 ==> JavaDiv(m, 10) == 0
  {
  }

  /** Java's division by ten is monotone in the dividend. */
  lemma JavaDivTenMonotone(m1: int, m2: int)
    requires m1 <= m2
    ensures JavaDiv(m1, 10) <= JavaDiv(m2, 10)
  {
  }

  /** Every run count below 20 (including zero and negative counts) gets
      exactly two warm-up runs. */
  lemma WarmupRunsBelowTwenty(m: int)
    requires m < 20
    ensures GetWarmupRuns(m) == 2
  {
  }

  /** Between 20 and 109 runs the warm-up count is exactly a tenth of the
      run count, rounded down. */
  lemma WarmupRunsMiddle(m: int)
    requires 20 <= m <= 109
    ensures GetWarmupRuns(m) == m / 10
  {
  }

  /** From 110 runs onwards the warm-up count is capped at ten. */
  lemma WarmupRunsCapped(m: int)
    requires m >= 110
    ensures GetWarmupRuns(m) == 10
  {
  }

  /** More runs never mean fewer warm-up runs. */
  lemma WarmupRunsMonotone(m1: int, m2: int)
    requires m1 <= m2
    ensures GetWarmupRuns(m1) <= GetWarmupRuns(m2)
  {
  }

  /** The documented upper bound "at most m/10" holds exactly for run counts
      of 20 or more; below 20 the tenth of the count is under two and the
      clamp to two exceeds it. */
  lemma WarmupRunsAtMostTenthIff(m: int)
    ensures GetWarmupRuns(m) <= JavaDiv(m, 10) <==> m >= 20
  {
  }

  /** A concrete run count for which the documented upper bound fails: five
      runs get two warm-up runs, while a tenth of five is zero. */
  lemma WarmupRunsExceedTenthAtFive()
    ensures GetWarmupRuns(5) == 2 && JavaDiv(5, 10) == 0
    ensures GetWarmupRuns(5) > JavaDiv(5, 10)
  {
  }
}
