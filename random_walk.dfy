/** A drunkard's walk on the integer lattice: the walker starts at the origin
    (the lamp-post) and each step moves one unit north, south, east or west.
    The two random booleans drawn for every step are supplied by the caller
    as `Step` values, so the walk is a deterministic function of them. */
module RandomWalk {

  /** The two random choices of one step: `ns` picks the x axis when true and
      the y axis when false (the name the Java `RandomWalk` class gives it),
      `positive` picks the direction +1 over -1. */
  datatype Step = Step(ns: bool, positive: bool)

  /** A lattice point, the value of the walker's position. */
  datatype Point = Point(x: int, y: int)

  function Abs(n: int): (r: nat)
    ensures r == n || r == -n
  {
    if n < 0 then -n else n
  }

  /** The number of unit steps needed to reach `p` from the origin. */
  function Manhattan(p: Point): nat
  {
    Abs(p.x) + Abs(p.y)
  }

  /** The square `n * n`, written as the sum of the first `n` odd numbers so
      that reasoning about a walk never involves a product of two unknowns;
      `SquareIsProduct` shows the two agree. */
  function Square(n: nat): (r: nat)
    ensures r >= n
  {
    if n == 0 then 0 else Square(n - 1) + 2 * n - 1
  }

  lemma {:induction false} SquareIsProduct(n: nat)
    ensures Square(n) == n * n
  {
    if n > 0 {
      SquareIsProduct(n - 1);
    }
  }

  /** The square of the Euclidean distance from the origin to `p`, the
      quantity whose square root the Java `RandomWalk.distance` returns. */
  function SquaredNorm(p: Point): nat
  {
    Square(Abs(p.x)) + Square(Abs(p.y))
  }

  /** The squared norm is `x*x + y*y`, the sum of the squared coordinates. */
  lemma SquaredNormIsSumOfSquares(p: Point)
    ensures SquaredNorm(p) == p.x * p.x + p.y * p.y
  {
    SquareIsProduct(Abs(p.x));
    SquareIsProduct(Abs(p.y));
    AbsSquared(p.x);
    AbsSquared(p.y);
  }

  lemma AbsSquared(n: int)
    ensures Abs(n) * Abs(n) == n * n
  {
  }

  /** Only the origin itself is at distance zero from the origin. */
  lemma SquaredNormZeroIff(p: Point)
    ensures SquaredNorm(p) == 0 <==> p == Point(0, 0)
  {
  }

  /** The displacement `(dx, dy)` that one step passes to `move`. */
  function Delta(s: Step): (d: Point)
    ensures Manhattan(d) == 1
    ensures s.ns ==> d.y == 0 && (d.x == 1 <==> s.positive)
    ensures !s.ns ==> d.x == 0 && (d.y == 1 <==> s.positive)
  {
    var step := if s.positive then 1 else -1;
    Point(if s.ns then step else 0, if s.ns then 0 else step)
  }

  function Add(p: Point, d: Point): Point
  {
    Point(p.x + d.x, p.y + d.y)
  }

  /** The total displacement of a walk that takes the first `n` of `steps`
      in order. */
  function Displacement(steps: seq<Step>, n: nat): Point
    requires n <= |steps|
  {
    if n == 0 then Point(0, 0)
    else Add(Displacement(steps, n - 1), Delta(steps[n - 1]))
  }

  /** Whatever the choices, a walk of n steps ends within n steps of where it
      started. */
  lemma {:induction false} DisplacementWithinSteps(steps: seq<Step>, n: nat)
    requires n <= |steps|
    ensures Manhattan(Displacement(steps, n)) <= n
  {
    if n > 0 {
      DisplacementWithinSteps(steps, n - 1);
      StepChangesManhattanByOne(Displacement(steps, n - 1), steps[n - 1]);
    }
  }

  /** The number of steps in the negative direction among the first `n`. */
  function Backward(steps: seq<Step>, n: nat): nat
    requires n <= |steps|
  {
    if n == 0 then 0
    else Backward(steps, n - 1) + (if steps[n - 1].positive then 0 else 1)
  }

  /** Every step moves the coordinate sum by +1 or -1, so after n steps of
      which b go in the negative direction the sum is n - 2b. */
  lemma {:induction false} DisplacementSum(steps: seq<Step>, n: nat)
    requires n <= |steps|
    ensures Displacement(steps, n).x + Displacement(steps, n).y == n - 2 * Backward(steps, n)
  {
    if n > 0 {
      DisplacementSum(steps, n - 1);
    }
  }

  /** Whatever the choices, the coordinate sum of a walk of n steps has the
      parity of n. */
  lemma {:induction false} DisplacementParity(steps: seq<Step>, n: nat)
    requires n <= |steps|
    ensures (Displacement(steps, n).x + Displacement(steps, n).y - n) % 2 == 0
  {
    DisplacementSum(steps, n);
    var d := Displacement(steps, n);
    EvenDouble(Backward(steps, n), d.x + d.y - n);
  }

  lemma EvenDouble(k: int, r: int)
    requires r == -2 * k
    ensures r % 2 == 0
  {
  }

  /** One step changes the walker's distance from the origin, counted in
      steps, by exactly one, towards or away from it. */
  lemma StepChangesManhattanByOne(p: Point, s: Step)
    ensures Manhattan(Add(p, Delta(s))) == Manhattan(p) + 1
         || Manhattan(Add(p, Delta(s))) == Manhattan(p) - 1
  {
  }

  /** One step flips the parity of the walker's coordinate sum. */
  lemma StepFlipsParity(p: Point, s: Step)
    ensures (Add(p, Delta(s)).x + Add(p, Delta(s)).y - p.x - p.y) % 2 == 1
  {
  }

  /** Squaring is monotone on the naturals. */
  lemma {:induction false} SquareMonotone(a: nat, b: nat)
    requires a <= b
    ensures Square(a) <= Square(b)
  {
    if a < b {
      SquareMonotone(a, b - 1);
    }
  }

  /** The square of a sum is at least the sum of the squares. */
  lemma {:induction false} SquareSuperadditive(a: nat, b: nat)
    ensures Square(a) + Square(b) <= Square(a + b)
  {
    if b > 0 {
      SquareSuperadditive(a, b - 1);
    }
  }

  /** A point within n steps of the origin is within Euclidean distance n of
      it: the Manhattan bound of a walk bounds its squared distance. */
  lemma SquaredNormBound(p: Point, n: nat)
    requires Manhattan(p) <= n
    ensures SquaredNorm(p) <= n * n
  {
    SquareSuperadditive(Abs(p.x), Abs(p.y));
    SquareMonotone(Abs(p.x) + Abs(p.y), n);
    SquareIsProduct(n);
  }

  /** The walker of the Java `RandomWalk` class: its position `(x, y)`,
      updated in place. */
  class Walker {
    var x: int
    var y: int

    /** A new walker stands at the origin. */
    constructor ()
      ensures x == 0 && y == 0
    {
      x, y := 0, 0;
    }

    /** Moves the walker by `(dx, dy)`. */
    method Move(dx: int, dy: int)
      modifies this
      ensures x == old(x) + dx && y == old(y) + dy
    {
      x := x + dx;
      y := y + dy;
    }

    /** Takes one step along the axis and in the direction that `s` chose. */
    method RandomMove(s: Step)
      modifies this
      ensures s.ns ==> y == old(y) && x == old(x) + (if s.positive then 1 else -1)
      ensures !s.ns ==> x == old(x) && y == old(y) + (if s.positive then 1 else -1)
      ensures Point(x, y) == Add(Point(old(x), old(y)), Delta(s))
    {
      var step := if s.positive then 1 else -1;
      Move(if s.ns then step else 0, if s.ns then 0 else step);
    }

    /** Performs a walk of `m` steps, the i-th of which takes `steps[i - 1]`;
        a walk of zero or fewer steps leaves the walker where it is. */
    method Walk(m: int, steps: seq<Step>)
      requires m <= |steps|
      modifies this
      ensures m <= 0 ==> x == old(x) && y == old(y)
      ensures m >= 0 ==> Point(x, y) == Add(Point(old(x), old(y)), Displacement(steps, m))
      ensures m >= 0 ==> Manhattan(Point(x - old(x), y - old(y))) <= m
      ensures m >= 0 ==> x + y - old(x) - old(y) == m - 2 * Backward(steps, m)
    {
      ghost var start := Point(x, y);
      var i := 1;
      while i <= m
        invariant 1 <= i && (m >= 0 ==> i <= m + 1)
        invariant m < 0 ==> i == 1
        invariant Point(x, y) == Add(start, Displacement(steps, i - 1))
      {
        RandomMove(steps[i - 1]);
        i := i + 1;
      }
      if m >= 0 {
        WalkEndBounds(start, Point(x, y), m, steps);
      }
    }

    /** The walker's squared Euclidean distance from the origin; it is zero
        exactly when the walker stands at the origin. */
    function SquaredDistance(): (d: nat)
      reads this
      ensures d == 0 <==> x == 0 && y == 0
    {
      SquaredNormZeroIff(Point(x, y));
      SquaredNorm(Point(x, y))
    }
  }

  /** One experiment of the multi-walk average: a fresh walker takes `m`
      steps, and the squared distance at which it ends up is returned: the
      squared norm of the walk's displacement, which WalkFromOriginBounds
      bounds by `m * m`. */
  method WalkSquaredDistance(m: int, steps: seq<Step>) returns (d: nat)
    requires m <= |steps|
    ensures m < 0 ==> d == 0
    ensures m >= 0 ==> d == SquaredNorm(Displacement(steps, m))
  {
    var walk := new Walker();
    walk.Walk(m, steps);
    ghost var end := Point(walk.x, walk.y);
    if m >= 0 {
      SquaredNormFromOrigin(end, steps, m);
    }
    d := walk.SquaredDistance();
  }

  /** A walk from the origin ends at its displacement, so the walker's
      squared distance is the displacement's squared norm. */
  lemma SquaredNormFromOrigin(end: Point, steps: seq<Step>, m: nat)
    requires m <= |steps| && end == Add(Point(0, 0), Displacement(steps, m))
    ensures end == Displacement(steps, m)
    ensures SquaredNorm(end) == SquaredNorm(Displacement(steps, m))
  {
  }

  /** Wherever a walk of `m` steps starts, it ends within `m` steps of its
      start, and its coordinate sum has changed by `m` less twice the number
      of negative steps, a number of the parity of `m`. */
  lemma WalkEndBounds(start: Point, end: Point, m: nat, steps: seq<Step>)
    requires m <= |steps| && end == Add(start, Displacement(steps, m))
    ensures Manhattan(Point(end.x - start.x, end.y - start.y)) <= m
    ensures end.x + end.y - start.x - start.y == m - 2 * Backward(steps, m)
  {
    var d := Displacement(steps, m);
    DisplacementWithinSteps(steps, m);
    DisplacementSum(steps, m);
    assert Point(end.x - start.x, end.y - start.y) == d;
  }

  /** After `m` steps from the origin the walker is at most `m` steps, and at
      most Euclidean distance `m`, away from it, and its coordinate sum has
      the parity of `m`. */
  lemma {:induction false} WalkFromOriginBounds(m: nat, steps: seq<Step>)
    requires m <= |steps|
    ensures Manhattan(Displacement(steps, m)) <= m
    ensures SquaredNorm(Displacement(steps, m)) <= m * m
    ensures (Displacement(steps, m).x + Displacement(steps, m).y - m) % 2 == 0
  {
    DisplacementWithinSteps(steps, m);
    DisplacementParity(steps, m);
    SquaredNormBound(Displacement(steps, m), m);
  }
}
