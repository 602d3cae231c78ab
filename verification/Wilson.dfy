/** Wilson score intervals (evals/contract_graph/score.py, evals/unit_metrics.py) in exact reals.

    `root` stands for the square root the code takes; it is any non-negative real whose square is
    the discriminant. */
module Wilson {

  ghost predicate IsRoot(root: real, x: real) {
    root >= 0.0 && root * root == x
  }

  function Discriminant(k: int, n: int, z: real): real
    requires n > 0
  {
    var p, m := k as real / n as real, n as real;
    p * (1.0 - p) / m + z * z / (4.0 * m * m)
  }

  function Center(k: int, n: int, z: real): real
    requires n > 0
  {
    var p, m := k as real / n as real, n as real;
    assert z * z / m >= 0.0 by { SquareRatio(z, m); }
    (p + z * z / (2.0 * m)) / (1.0 + z * z / m)
  }

  function Margin(n: int, z: real, root: real): real
    requires n > 0
  {
    var m := n as real;
    assert z * z / m >= 0.0 by { SquareRatio(z, m); }
    z * root / (1.0 + z * z / m)
  }

  function Max(a: real, b: real): real { if a >= b then a else b }
  function Min(a: real, b: real): real { if a <= b then a else b }

  /** The interval as the code computes it, clamps included. */
  function Interval(k: int, n: int, z: real, root: real): (real, real)
    requires n >= 0
  {
    if n == 0 then (0.0, 1.0)
    else (Max(0.0, Center(k, n, z) - Margin(n, z, root)), Min(1.0, Center(k, n, z) + Margin(n, z, root)))
  }

  // ---------------------------------------------------------------- algebra

  lemma SquareRatio(z: real, m: real)
    requires m > 0.0
    ensures z * z / m >= 0.0
  {
  }

  lemma {:induction false} SquaresGrow(a: real, b: real)
    requires 0.0 <= a < b
    ensures a * a < b * b
  {
    assert (b - a) * b > 0.0;
    assert (b - a) * a >= 0.0;
  }

  lemma {:induction false} RootOrder(a: real, b: real)
    requires b >= 0.0 && a * a <= b * b
    ensures a <= b
  {
    if a > b {
      SquaresGrow(b, a);
    }
  }

  /** The four inequalities behind the interval, for rate p, w = z*z/n and t = z*root. */
  lemma {:induction false} CoreBounds(p: real, w: real, t: real)
    requires 0.0 <= p <= 1.0 && w >= 0.0 && t >= 0.0
    requires t * t == w * p * (1.0 - p) + w * w / 4.0
    ensures t <= p + w / 2.0
    ensures p + w / 2.0 + t <= 1.0 + w
    ensures w * (0.5 - p) <= t && w * (p - 0.5) <= t
  {
    UpperSide(p, w, t);
    UpperSide(1.0 - p, w, t);
    var d := w * (0.5 - p);
    ProductNonNegative(w, p);
    ProductNonNegative(w * p, 1.0 - p);
    ProductNonNegative(w, w * p * (1.0 - p));
    assert d * d == w * w / 4.0 - w * (w * p * (1.0 - p));
    RootOrder(d, t);
    RootOrder(-d, t);
  }

  lemma {:induction false} UpperSide(p: real, w: real, t: real)
    requires 0.0 <= p <= 1.0 && w >= 0.0 && t >= 0.0
    requires t * t == w * p * (1.0 - p) + w * w / 4.0
    ensures t <= p + w / 2.0
  {
    ProductNonNegative(p, p);
    ProductNonNegative(w, p * p);
    assert (p + w / 2.0) * (p + w / 2.0) == t * t + p * p + w * (p * p);
    RootOrder(t, p + w / 2.0);
  }

  lemma ProductNonNegative(a: real, b: real)
    requires a >= 0.0 && b >= 0.0
    ensures a * b >= 0.0
  {
  }

  lemma {:induction false} DividedBounds(a: real, b: real, d: real)
    requires d > 0.0 && a <= b * d
    ensures a / d <= b
  {
  }

  lemma {:induction false} DividedLower(a: real, b: real, d: real)
    requires d > 0.0 && b * d <= a
    ensures b <= a / d
  {
  }

  // ---------------------------------------------------------------- results

  /** The square root is defined for every count within its total. */
  lemma {:induction false} DiscriminantIsDefined(k: int, n: int, z: real)
    requires 0 <= k <= n && n > 0
    ensures Discriminant(k, n, z) >= 0.0
  {
    var p, m := k as real / n as real, n as real;
    DividedBounds(k as real, 1.0, m);
    DividedLower(k as real, 0.0, m);
    ProductNonNegative(p, 1.0 - p);
    ProductNonNegative(m, m);
    DividedLower(p * (1.0 - p), 0.0, m);
    SquareRatio(z, 4.0 * m * m);
  }

  lemma {:induction false} ScaledRootOf(k: int, n: int, z: real, root: real)
    requires n > 0 && IsRoot(root, Discriminant(k, n, z))
    ensures
      var p, m := k as real / n as real, n as real;
      (z * root) * (z * root) == (z * z / m) * p * (1.0 - p) + (z * z / m) * (z * z / m) / 4.0
  {
  }

  /** Both ends as quotients of the same sums. */
  lemma {:induction false} Ends(k: int, n: int, z: real, root: real, p: real, w: real, t: real)
    requires n > 0 && p == k as real / n as real && w == z * z / n as real && t == z * root && w >= 0.0
    ensures Center(k, n, z) - Margin(n, z, root) == (p + w / 2.0 - t) / (1.0 + w)
    ensures Center(k, n, z) + Margin(n, z, root) == (p + w / 2.0 + t) / (1.0 + w)
  {
    HalfRatio(z, n as real);
    Quotients(p + w / 2.0, t, 1.0 + w);
  }

  lemma {:induction false} Sides(k: int, n: int, z: real, root: real, p: real, w: real, t: real)
    requires 0 <= k <= n && n > 0 && z >= 0.0 && IsRoot(root, Discriminant(k, n, z))
    requires p == k as real / n as real && w == z * z / n as real && t == z * root
    ensures 0.0 <= p <= 1.0 && w >= 0.0
    ensures t <= p + w / 2.0 && p + w / 2.0 + t <= 1.0 + w
    ensures w * (0.5 - p) <= t && w * (p - 0.5) <= t
  {
    DividedBounds(k as real, 1.0, n as real);
    DividedLower(k as real, 0.0, n as real);
    SquareRatio(z, n as real);
    ScaledRootOf(k, n, z, root);
    ProductNonNegative(z, root);
    CoreBounds(p, w, t);
  }

  lemma {:induction false} EndsBounded(p: real, w: real, t: real)
    requires w >= 0.0 && t <= p + w / 2.0 && p + w / 2.0 + t <= 1.0 + w
    requires w * (0.5 - p) <= t && w * (p - 0.5) <= t
    ensures 0.0 <= (p + w / 2.0 - t) / (1.0 + w) <= p <= (p + w / 2.0 + t) / (1.0 + w) <= 1.0
  {
    var d := 1.0 + w;
    assert p * d == p + p * w && w * (0.5 - p) == w / 2.0 - p * w && w * (p - 0.5) == p * w - w / 2.0;
    DividedLower(p + w / 2.0 - t, 0.0, d);
    DividedBounds(p + w / 2.0 - t, p, d);
    DividedLower(p + w / 2.0 + t, p, d);
    DividedBounds(p + w / 2.0 + t, 1.0, d);
  }

  lemma {:induction false} HalfRatio(z: real, m: real)
    requires m > 0.0
    ensures z * z / (2.0 * m) == z * z / m / 2.0
  {
  }

  lemma {:induction false} Quotients(a: real, b: real, d: real)
    requires d > 0.0
    ensures a / d - b / d == (a - b) / d
    ensures a / d + b / d == (a + b) / d
  {
  }

  /** Both clamps are redundant and the interval holds the observed rate. */
  lemma {:induction false} IntervalHoldsRate(k: int, n: int, z: real, root: real)
    requires 0 <= k <= n && n > 0 && z >= 0.0 && IsRoot(root, Discriminant(k, n, z))
    ensures
      var (lower, upper) := Interval(k, n, z, root);
      && lower == Center(k, n, z) - Margin(n, z, root)
      && upper == Center(k, n, z) + Margin(n, z, root)
      && 0.0 <= lower <= k as real / n as real <= upper <= 1.0
  {
    var p, w, t := k as real / n as real, z * z / n as real, z * root;
    Sides(k, n, z, root, p, w, t);
    Ends(k, n, z, root, p, w, t);
    EndsBounded(p, w, t);
  }

  /** Counting failures instead of successes mirrors the interval. */
  lemma {:induction false} IntervalReflects(k: int, n: int, z: real, root: real, mirrored: real)
    requires 0 <= k <= n && n > 0 && z >= 0.0
    requires IsRoot(root, Discriminant(k, n, z)) && IsRoot(mirrored, Discriminant(n - k, n, z))
    ensures Interval(k, n, z, root).0 == 1.0 - Interval(n - k, n, z, mirrored).1
    ensures Interval(k, n, z, root).1 == 1.0 - Interval(n - k, n, z, mirrored).0
  {
    MirroredRate(k, n);
    var p, q := k as real / n as real, (n - k) as real / n as real;
    assert p * (1.0 - p) == q * (1.0 - q);
    assert Discriminant(k, n, z) == Discriminant(n - k, n, z);
    RootOrder(root, mirrored);
    RootOrder(mirrored, root);
    IntervalHoldsRate(k, n, z, root);
    IntervalHoldsRate(n - k, n, z, root);
    MirroredCenter(k, n, z);
  }

  lemma {:induction false} MirroredRate(k: int, n: int)
    requires n > 0
    ensures (n - k) as real / n as real == 1.0 - k as real / n as real
  {
    var m := n as real;
    Quotients(m, k as real, m);
    assert m / m == 1.0;
  }

  lemma {:induction false} MirroredCenter(k: int, n: int, z: real)
    requires n > 0
    ensures Center(n - k, n, z) == 1.0 - Center(k, n, z)
  {
    var p, m := k as real / n as real, n as real;
    var d, h := 1.0 + z * z / m, z * z / (2.0 * m);
    SquareRatio(z, m);
    MirroredRate(k, n);
    HalfRatio(z, m);
    assert (1.0 - p + h) + (p + h) == d;
    Quotients(1.0 - p + h, p + h, d);
    assert d / d == 1.0;
  }
}
