# Warm-up runs and the drunkard's walk

This project models two small pieces of the INFO6205 course repository in
Dafny and proves properties of them.

- **Benchmark warm-up runs** (`warmup_runs.dfy`, module `BenchmarkTimer`).
  Before a benchmark times `m` runs of a function, it performs a number of
  untimed warm-up runs. That number is `m / 10` clamped into the range
  `[2, 10]`, where `/` is Java's integer division, which rounds toward zero.
  The model writes Java's division out as `JavaDiv`, because Dafny's `/` is
  Euclidean and differs for negative dividends. The lemmas give the piecewise
  closed form: 2 below 20 runs (including zero and negative counts), `m / 10`
  from 20 to 109, and 10 from 110 on. They also prove monotonicity. The
  method's doc comment promises "at least 2 and at most m/10". The code never
  meets that upper bound when `m < 20`. The model follows the code, and
  `WarmupRunsAtMostTenthIff` and `WarmupRunsExceedTenthAtFive` state exactly
  where the comment is wrong.
- **Random walk** (`random_walk.dfy`, module `RandomWalk`). A walker stands
  at integer coordinates `(x, y)`, starting at the origin (the lamp-post).
  `Move` adds a displacement. `RandomMove` takes one unit step along one axis.
  `Walk(m, …)` takes `m` such steps in a loop. The class `RandomWalk.Walker`
  keeps `x` and `y` as mutable fields. Its methods update them in place and
  are proved against the value-level function `Displacement`. Lemmas about
  that function prove the properties that matter:
  - After `n` steps the walker is at most `n` steps from where it started.
  - The coordinate sum changes by exactly `n - 2b`, where `b` is the number
    of negative steps, so it has the parity of `n`.
  - The squared Euclidean distance is at most `n * n`.

The two random booleans drawn for every step (`random.nextBoolean()` twice)
are inputs: a `Step(ns, positive)` value per step, and a sequence of them for
a walk. The floating-point `distance()` becomes the integer squared distance
`x*x + y*y`, which is the quantity under its square root. Each square is
written as a sum of odd numbers (`Square`), and `SquareIsProduct` proves
that it equals the product `n * n`.

## Model

| member | source | states |
|---|---|---|
| `BenchmarkTimer.JavaDiv` | src/main/java/edu/neu/coe/info6205/util/Benchmark_Timer.java:46 | Java's `m / 10`: the remainder `a - q * d` lies in `[0, d)` for a non-negative dividend and in `(-d, 0]` for a non-positive one, so the quotient rounds toward zero |
| `BenchmarkTimer.Max` | src/main/java/edu/neu/coe/info6205/util/Benchmark_Timer.java:46 | `Integer.max`: the result is one of the arguments and at least both |
| `BenchmarkTimer.Min` | src/main/java/edu/neu/coe/info6205/util/Benchmark_Timer.java:46 | `Integer.min`: the result is one of the arguments and at most both |
| `BenchmarkTimer.GetWarmupRuns` | src/main/java/edu/neu/coe/info6205/util/Benchmark_Timer.java:39-47 | the warm-up count is at least 2 and at most 10 for every `m` |
| `BenchmarkTimer.JavaDivNonNegative` | src/main/java/edu/neu/coe/info6205/util/Benchmark_Timer.java:46 | for a non-negative dividend and positive divisor, Java's division equals the Euclidean one |
| `BenchmarkTimer.JavaDivTenOfNegative` | src/main/java/edu/neu/coe/info6205/util/Benchmark_Timer.java:46 | a negative run count divided by ten is never positive, and is zero above -10 |
| `BenchmarkTimer.JavaDivTenMonotone` | src/main/java/edu/neu/coe/info6205/util/Benchmark_Timer.java:46 | Java's division by ten is non-decreasing in the dividend |
| `BenchmarkTimer.WarmupRunsBelowTwenty` | src/main/java/edu/neu/coe/info6205/util/Benchmark_Timer.java:46 | every `m < 20`, including zero and negatives, gets exactly 2 warm-up runs |
| `BenchmarkTimer.WarmupRunsMiddle` | src/main/java/edu/neu/coe/info6205/util/Benchmark_Timer.java:46 | for `20 <= m <= 109` the warm-up count is exactly `m / 10` |
| `BenchmarkTimer.WarmupRunsCapped` | src/main/java/edu/neu/coe/info6205/util/Benchmark_Timer.java:46 | for `m >= 110` the warm-up count is exactly 10 |
| `BenchmarkTimer.WarmupRunsMonotone` | src/main/java/edu/neu/coe/info6205/util/Benchmark_Timer.java:46 | more runs never give fewer warm-up runs |
| `BenchmarkTimer.WarmupRunsAtMostTenthIff` | src/main/java/edu/neu/coe/info6205/util/Benchmark_Timer.java:43-46 | the documented bound "at most m/10" holds if and only if `m >= 20` |
| `BenchmarkTimer.WarmupRunsExceedTenthAtFive` | src/main/java/edu/neu/coe/info6205/util/Benchmark_Timer.java:43-46 | counterexample to the documented bound: `m = 5` gives 2 warm-up runs while `m / 10` is 0 |
| `RandomWalk.Walker.constructor` | src/main/java/edu/neu/coe/info6205/randomwalk/RandomWalk.java:13-14 | a new walker stands at `(0, 0)` |
| `RandomWalk.Walker.Move` | src/main/java/edu/neu/coe/info6205/randomwalk/RandomWalk.java:24-27 | `x` becomes `old x + dx` and `y` becomes `old y + dy`; nothing else changes |
| `RandomWalk.Delta` | src/main/java/edu/neu/coe/info6205/randomwalk/RandomWalk.java:44-47 | a step's displacement is one unit long; with `ns` it lies on the x axis, otherwise on the y axis; it is +1 exactly when the second boolean is true |
| `RandomWalk.Walker.RandomMove` | src/main/java/edu/neu/coe/info6205/randomwalk/RandomWalk.java:44-48 | with `ns` only `x` changes, by +1 or -1; without it only `y` changes; the sign follows the second boolean |
| `RandomWalk.StepChangesManhattanByOne` | src/main/java/edu/neu/coe/info6205/randomwalk/RandomWalk.java:42-47 | one step changes `abs(x) + abs(y)` by exactly 1, up or down |
| `RandomWalk.StepFlipsParity` | src/main/java/edu/neu/coe/info6205/randomwalk/RandomWalk.java:46-47 | one step flips the parity of `x + y` |
| `RandomWalk.Walker.Walk` | src/main/java/edu/neu/coe/info6205/randomwalk/RandomWalk.java:34-38 | `m <= 0` leaves the position unchanged; otherwise the position moves by the displacement of the first `m` steps, stays within `m` steps of the start, and `x + y` changes by `m - 2b` (`b` = number of negative steps) |
| `RandomWalk.DisplacementWithinSteps` | src/main/java/edu/neu/coe/info6205/randomwalk/RandomWalk.java:34-47 | the displacement of `n` steps has Manhattan length at most `n` |
| `RandomWalk.DisplacementSum` | src/main/java/edu/neu/coe/info6205/randomwalk/RandomWalk.java:34-47 | after `n` steps, `b` of them negative, `x + y` of the displacement is `n - 2b` |
| `RandomWalk.DisplacementParity` | src/main/java/edu/neu/coe/info6205/randomwalk/RandomWalk.java:34-47 | after `n` steps, `x + y` of the displacement has the parity of `n` |
| `RandomWalk.WalkEndBounds` | src/main/java/edu/neu/coe/info6205/randomwalk/RandomWalk.java:34-38 | from any start, a walk of `m` steps ends within `m` steps of it, with the coordinate sum changed by `m - 2b` |
| `RandomWalk.Walker.SquaredDistance` | src/main/java/edu/neu/coe/info6205/randomwalk/RandomWalk.java:55-56 | the walker's squared distance, `x*x + y*y`, the square of what `distance()` returns; it is zero exactly when the walker stands at the origin |
| `RandomWalk.Square` | src/main/java/edu/neu/coe/info6205/randomwalk/RandomWalk.java:56 | `Math.pow(v, 2)` for the magnitude `v` of a coordinate: the square of a natural number is at least the number |
| `RandomWalk.SquareIsProduct` | src/main/java/edu/neu/coe/info6205/randomwalk/RandomWalk.java:56 | the recursive square of `n` equals `n * n` |
| `RandomWalk.SquaredNormIsSumOfSquares` | src/main/java/edu/neu/coe/info6205/randomwalk/RandomWalk.java:56 | the squared norm of a point is `x*x + y*y` |
| `RandomWalk.SquaredNormZeroIff` | src/main/java/edu/neu/coe/info6205/randomwalk/RandomWalk.java:55-56 | the squared distance is zero if and only if the walker is at the origin |
| `RandomWalk.SquaredNormBound` | src/main/java/edu/neu/coe/info6205/randomwalk/RandomWalk.java:56 | a point within `n` steps of the origin has squared distance at most `n * n` |
| `RandomWalk.WalkFromOriginBounds` | src/main/java/edu/neu/coe/info6205/randomwalk/RandomWalk.java:34-56 | after `m` steps from the origin: `abs(x) + abs(y) <= m`, `x*x + y*y <= m*m`, and `x + y` has the parity of `m` |
| `RandomWalk.WalkSquaredDistance` | src/main/java/edu/neu/coe/info6205/randomwalk/RandomWalk.java:69-71 | one experiment (new walker, `m` steps, distance) returns the squared norm of the walk's displacement, or 0 when `m < 0` |

## Left out

- The disjoint-set (union-find) structure `UF_HWQUPC` and its driver `UF_Client`. `UF_HWQUPC` is not part of this model: its source is not available, and the driver only calls into it and prints.
- `Benchmark_Timer.runFromSupplier`, its constructors and `main`. They do wall-clock timing through a `Timer` class that is not part of this model, plus logging and sorting code from elsewhere.
- `RandomWalk.distance`: its floating-point `sqrt`/`pow` is replaced by the integer squared distance `SquaredDistance`.
- `RandomWalk.randomWalkMulti`: the averaging of floating-point distances is left out. One experiment of its loop is modelled as `WalkSquaredDistance`.
- `RandomWalk.main`: it writes a CSV file and prints.
- `java.util.Random`: its booleans are caller-supplied `Step` values, so nothing about their distribution is modelled.
- `BenchmarkTimer.JavaDiv`: Java's division is modelled for a positive divisor only. `getWarmupRuns` divides only by the constant 10, and a zero divisor, which would throw, cannot occur.
- `RandomWalk.Walker.Walk` requires at least `m` supplied steps. The Java `randomWalk` draws as many random booleans as it needs.
- `RandomWalk.WalkSquaredDistance`: its contract gives the result as the squared norm of the displacement. The bound `d <= m * m` is proved separately by `WalkFromOriginBounds`.
- Java 32-bit `int` overflow in `move` is not modelled: Dafny's `int` is unbounded. `WalkEndBounds` shows each coordinate stays within `m` of its start for the `m` steps the model takes, so a walk of `m` steps from the origin does not overflow. `getWarmupRuns` cannot overflow: its only operation is division.
- `RandomWalk.Walker.Walk`: for `m = Integer.MAX_VALUE` the Java loop never ends. Its counter `i` wraps from `Integer.MAX_VALUE` to `Integer.MIN_VALUE`, so `i <= m` stays true and the walker keeps moving. The model stops after `m` steps.
