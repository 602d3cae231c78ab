/** Cohen's kappa between two label sequences (evals/scripts/candidate_review.py), in exact reals. */
module Kappa {
  import opened Basics

  /** Labels are only ever compared for equality. */
  datatype Label = Label(name: string)

  datatype Agreement = LengthMismatch | Empty | Agreement(denominator: nat, observed: real, kappa: real)

  function Matches(a: seq<Label>, b: seq<Label>): nat
    requires |a| == |b|
  {
    if a == [] then 0 else Matches(a[1..], b[1..]) + if a[0] == b[0] then 1 else 0
  }

  function Count(s: seq<Label>, l: Label): nat {
    if s == [] then 0 else Count(s[1..], l) + if s[0] == l then 1 else 0
  }

  ghost function Categories(a: seq<Label>, b: seq<Label>): set<Label> {
    (set l | l in a) + (set l | l in b)
  }

  ghost function Products(a: seq<Label>, b: seq<Label>): Label -> int {
    l => Count(a, l) * Count(b, l)
  }

  /** The numerator of the chance agreement: products of the two counts, over all labels. */
  ghost function ChanceSum(a: seq<Label>, b: seq<Label>): int {
    SumOver(Categories(a, b), Products(a, b))
  }

  ghost function AgreementForLabels(expected: seq<Label>, reviewed: seq<Label>): Agreement {
    if |expected| != |reviewed| then LengthMismatch
    else if expected == [] then Empty
    else
      var n := |expected|;
      var observed := Matches(expected, reviewed) as real / n as real;
      var chance := ChanceSum(expected, reviewed) as real / (n * n) as real;
      var kappa :=
        if chance < 1.0 then (observed - chance) / (1.0 - chance)
        else if observed == 1.0 then 1.0 else 0.0;
      Agreement(n, observed, kappa)
  }

  // ---------------------------------------------------------------- counting

  lemma {:induction false} MatchesWithin(a: seq<Label>, b: seq<Label>)
    requires |a| == |b|
    ensures Matches(a, b) <= |a|
    ensures Matches(a, b) == |a| <==> a == b
  {
    if a != [] {
      MatchesWithin(a[1..], b[1..]);
      assert a == [a[0]] + a[1..] && b == [b[0]] + b[1..];
    }
  }

  /** A label counted in both sequences beyond the length must match somewhere. */
  lemma {:induction false} CountsOverlap(a: seq<Label>, b: seq<Label>, l: Label)
    requires |a| == |b|
    ensures Count(a, l) + Count(b, l) <= |a| + Matches(a, b)
  {
    if a != [] {
      CountsOverlap(a[1..], b[1..], l);
    }
  }

  ghost function Counts(s: seq<Label>): Label -> int {
    l => Count(s, l)
  }

  /** Counting by label counts every position once. */
  lemma {:induction false} CountsAddUp(s: seq<Label>, labels: set<Label>)
    requires forall l :: l in s ==> l in labels
    ensures SumOver(labels, Counts(s)) == |s|
  {
    if s == [] {
      SumOverMore({}, labels, Counts(s));
    } else {
      CountsAddUp(s[1..], labels);
      SumChangedAt(labels, Counts(s[1..]), Counts(s), s[0]);
    }
  }

  // ---------------------------------------------------------------- bounds

  lemma {:induction false} ScaledSum(labels: set<Label>, f: Label -> int, g: Label -> int, bound: int)
    requires forall l :: l in labels ==> g(l) == bound * f(l)
    ensures SumOver(labels, g) == bound * SumOver(labels, f)
  {
    if labels != {} {
      var l :| l in labels;
      SumWithout(labels, f, l);
      SumWithout(labels, g, l);
      ScaledSum(labels - {l}, f, g, bound);
    }
  }

  /** Four times a product is at most the square of the sum, so twice 2xy is at most (x+y) times a bound on it. */
  lemma {:induction false} ProductBound(x: int, y: int, bound: int)
    requires 0 <= x && 0 <= y && x + y <= bound
    ensures 4 * (x * y) <= bound * (x + y)
  {
    assert (x - y) * (x - y) >= 0;
    assert (x + y) * (x + y) <= bound * (x + y);
  }

  lemma {:induction false} LabelProducts(a: seq<Label>, b: seq<Label>, labels: set<Label>, bound: int)
    requires forall l :: l in labels ==> Count(a, l) + Count(b, l) <= bound
    ensures 4 * SumOver(labels, Products(a, b)) <= bound * (SumOver(labels, Counts(a)) + SumOver(labels, Counts(b)))
  {
    var sum := (l: Label) => Count(a, l) + Count(b, l);
    var four := (l: Label) => 4 * Products(a, b)(l);
    var scaled := (l: Label) => bound * sum(l);
    forall l | l in labels ensures four(l) <= scaled(l) {
      ProductBound(Count(a, l), Count(b, l), bound);
      assert Products(a, b)(l) == Count(a, l) * Count(b, l);
    }
    SumAtMost(labels, four, scaled);
    ScaledSum(labels, Products(a, b), four, 4);
    ScaledSum(labels, sum, scaled, bound);
    SumPlus(labels, Counts(a), Counts(b), sum);
  }

  /** Chance agreement cannot exceed half of n * (n + matches). */
  lemma {:induction false} ChanceIsBounded(a: seq<Label>, b: seq<Label>)
    requires |a| == |b|
    ensures 2 * ChanceSum(a, b) <= |a| * (|a| + Matches(a, b))
  {
    var labels, n, bound := Categories(a, b), |a|, |a| + Matches(a, b);
    forall l | l in labels ensures Count(a, l) + Count(b, l) <= bound {
      CountsOverlap(a, b, l);
    }
    CountsAddUp(a, labels);
    CountsAddUp(b, labels);
    LabelProducts(a, b, labels, bound);
    HalvedBound(ChanceSum(a, b), n, bound);
  }

  lemma {:induction false} HalvedBound(s: int, n: int, bound: int)
    requires 4 * s <= bound * (n + n)
    ensures 2 * s <= n * bound
  {
  }

  /** The integer core: with at most m < n matches the chance sum stays below n*n. */
  lemma {:induction false} ChanceCore(s: int, m: int, n: int)
    requires 0 <= m <= n && 2 * s <= n * (n + m)
    ensures s <= n * n
    ensures s == n * n ==> m == n
    ensures -(n * n - s) <= n * m - s <= n * n - s
    ensures s < n * n && n * m == n * n ==> m == n
  {
  }

  /** Chance agreement is total only when both sequences repeat one label. */
  lemma {:induction false} ChanceIsTotal(a: seq<Label>, b: seq<Label>)
    requires |a| == |b|
    ensures ChanceSum(a, b) <= |a| * |a|
    ensures ChanceSum(a, b) == |a| * |a| ==> a == b
  {
    ChanceIsBounded(a, b);
    MatchesWithin(a, b);
    ChanceCore(ChanceSum(a, b), Matches(a, b), |a|);
  }

  lemma RateOfSquare(m: real, n: real)
    requires n > 0.0
    ensures n * n > 0.0 && m / n * (n * n) == n * m
  {
  }

  lemma ShareTimes(s: real, d: real)
    requires d > 0.0
    ensures s / d * d == s
  {
  }

  lemma {:induction false} KappaOfReals(m: real, s: real, n: real)
    requires n > 0.0 && s < n * n
    ensures n * n > 0.0 && s / (n * n) < 1.0
    ensures (m / n - s / (n * n)) / (1.0 - s / (n * n)) == (n * m - s) / (n * n - s)
  {
    var nn := n * n;
    RateOfSquare(m, n);
    var observed, chance := m / n, s / nn;
    ShareTimes(s, nn);
    BelowOne(s, nn);
    assert (observed - chance) * nn == n * m - s;
    assert (1.0 - chance) * nn == nn - s;
    SameQuotient(observed - chance, 1.0 - chance, nn);
  }

  /** kappa as a quotient of integers. */
  lemma {:induction false} KappaQuotient(m: int, s: int, n: int)
    requires n > 0 && s < n * n
    ensures
      var observed, chance := m as real / n as real, s as real / (n * n) as real;
      chance < 1.0
      && (observed - chance) / (1.0 - chance) == (n * m - s) as real / (n * n - s) as real
  {
    ProductOfReals(n, n);
    ProductOfReals(n, m);
    KappaOfReals(m as real, s as real, n as real);
  }

  lemma ProductOfReals(a: int, b: int)
    ensures (a * b) as real == a as real * b as real
  {
  }

  lemma {:induction false} SameQuotient(x: real, y: real, k: real)
    requires k > 0.0 && y * k > 0.0
    ensures y > 0.0 && x / y == (x * k) / (y * k)
  {
  }

  lemma {:induction false} QuotientBounds(a: int, d: int)
    requires d > 0 && -d <= a <= d
    ensures -1.0 <= a as real / d as real <= 1.0
    ensures a as real / d as real == 1.0 <==> a == d
  {
    assert (a as real / d as real) * d as real == a as real;
  }

  /** Main result: kappa lies in [-1, 1] and is 1 exactly when every label matches. */
  lemma {:induction false} KappaIsBounded(expected: seq<Label>, reviewed: seq<Label>)
    requires |expected| == |reviewed| > 0
    ensures
      var r := AgreementForLabels(expected, reviewed);
      r.Agreement? && -1.0 <= r.kappa <= 1.0 && (r.kappa == 1.0 <==> expected == reviewed)
  {
    var n, m, s := |expected|, Matches(expected, reviewed), ChanceSum(expected, reviewed);
    ChanceIsTotal(expected, reviewed);
    ChanceIsBounded(expected, reviewed);
    MatchesWithin(expected, reviewed);
    ChanceCore(s, m, n);
    if s < n * n {
      KappaQuotient(m, s, n);
      QuotientBounds(n * m - s, n * n - s);
    } else {
      TotalQuotient(s, n);
      QuotientBounds(n, n);
    }
  }

  lemma {:induction false} TotalQuotient(s: int, n: int)
    requires n > 0
    ensures n * n > 0
    ensures s as real / (n * n) as real < 1.0 <==> s < n * n
  {
    assert n * n > 0;
    BelowOne(s as real, (n * n) as real);
  }

  lemma {:induction false} BelowOne(x: real, d: real)
    requires d > 0.0
    ensures x / d < 1.0 <==> x < d
  {
  }

  /** When chance agreement is total every label matches, so kappa never falls back to 0. */
  lemma {:induction false} FallbackIsUnreachable(expected: seq<Label>, reviewed: seq<Label>)
    requires |expected| == |reviewed| > 0
    requires !(ChanceSum(expected, reviewed) as real / (|expected| * |expected|) as real < 1.0)
    ensures Matches(expected, reviewed) as real / |expected| as real == 1.0
    ensures expected == reviewed
  {
    var n, s := |expected|, ChanceSum(expected, reviewed);
    ChanceIsTotal(expected, reviewed);
    MatchesWithin(expected, reviewed);
    TotalQuotient(s, n);
    QuotientBounds(n, n);
  }

  // ---------------------------------------------------------------- the coefficient in terms of positions

  /** The places from k on where the two sequences agree. */
  ghost function AgreeingPlaces(a: seq<Label>, b: seq<Label>, k: nat): set<nat>
    requires |a| == |b|
  {
    set i: nat | i < |a| && k <= i && a[i] == b[i]
  }

  lemma {:induction false} MatchesOfPlaces(a: seq<Label>, b: seq<Label>, k: nat)
    requires k <= |a| == |b|
    ensures Matches(a[k..], b[k..]) == |AgreeingPlaces(a, b, k)|
    decreases |a| - k
  {
    if k == |a| {
      assert AgreeingPlaces(a, b, k) == {};
    } else {
      MatchesOfPlaces(a, b, k + 1);
      assert a[k..][1..] == a[k + 1..] && b[k..][1..] == b[k + 1..];
      OneMore(AgreeingPlaces(a, b, k + 1), AgreeingPlaces(a, b, k), k, a[k] == b[k]);
    }
  }

  lemma {:induction false} AllMatches(a: seq<Label>, b: seq<Label>)
    requires |a| == |b|
    ensures Matches(a, b) == |AgreeingPlaces(a, b, 0)|
  {
    MatchesOfPlaces(a, b, 0);
    assert a[0..] == a && b[0..] == b;
  }

  lemma {:induction false} CountIsMultiplicity(s: seq<Label>, l: Label)
    ensures Count(s, l) == multiset(s)[l]
  {
    if s != [] {
      CountIsMultiplicity(s[1..], l);
      assert s == [s[0]] + s[1..];
    }
  }

  lemma {:induction false} AgreementFields(expected: seq<Label>, reviewed: seq<Label>, n: int, m: int, s: int)
    requires |expected| == |reviewed| == n && n > 0
    requires m == Matches(expected, reviewed) && s == ChanceSum(expected, reviewed)
    ensures
      var r := AgreementForLabels(expected, reviewed);
      && r.Agreement? && r.denominator == n && r.observed == m as real / n as real
      && (s < n * n ==> r.kappa == (n * m - s) as real / (n * n - s) as real)
  {
    TotalQuotient(s, n);
    if s < n * n {
      KappaQuotient(m, s, n);
    }
  }

  /** What the agreement reports: how many labels there are, the share of places that agree, and kappa as the part of
      the agreement beyond chance among what chance leaves open. */
  lemma {:induction false} AgreementOfPlaces(expected: seq<Label>, reviewed: seq<Label>, agreeing: int, chance: int)
    requires |expected| == |reviewed| > 0
    requires agreeing == |AgreeingPlaces(expected, reviewed, 0)| && chance == ChanceSum(expected, reviewed)
    ensures
      var r, n := AgreementForLabels(expected, reviewed), |expected|;
      && r.Agreement? && r.denominator == n && r.observed == agreeing as real / n as real
      && (chance < n * n ==> r.kappa == (n * agreeing - chance) as real / (n * n - chance) as real)
  {
    AllMatches(expected, reviewed);
    AgreementFields(expected, reviewed, |expected|, agreeing, chance);
  }

  /** The chance sum adds, over all labels that occur, the products of how often each side uses the label. */
  lemma {:induction false} ChanceOfLabels(expected: seq<Label>, reviewed: seq<Label>, f: Label -> int)
    requires forall l :: f(l) == multiset(expected)[l] * multiset(reviewed)[l]
    ensures ChanceSum(expected, reviewed) == SumOver(Elements(expected + reviewed), f)
  {
    assert Categories(expected, reviewed) == Elements(expected + reviewed);
    forall l ensures Products(expected, reviewed)(l) == f(l) {
      CountIsMultiplicity(expected, l);
      CountIsMultiplicity(reviewed, l);
    }
    SumSame(Categories(expected, reviewed), Products(expected, reviewed), f);
  }
}
