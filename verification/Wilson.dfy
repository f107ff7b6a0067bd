/**
 The Wilson interval over exact reals, against what defines it: the proportions that a
 score test at the same level does not reject. The square root is given by its witness.
 */
module Wilson {

  const Z95 := 1.959963984540054

  datatype Interval = Interval(sampleSize: int, lower: real, upper: real)

  function Times(a: real, b: real): real { a * b }

  function Square(a: real): real { a * a }

  function Radicand(p: real, n: real, z: real): real
    requires n > 0.0
  {
    SquarePositive(n);
    p * (1.0 - p) / n + Square(z) / (4.0 * Square(n))
  }

  function Denominator(n: real, z: real): (d: real)
    requires n > 0.0
    ensures d > 0.0
  {
    SquareOver(z, n);
    1.0 + Square(z) / n
  }

  function Center(p: real, n: real, z: real): real
    requires n > 0.0
  {
    (p + Square(z) / (2.0 * n)) / Denominator(n, z)
  }

  function Margin(root: real, n: real, z: real): real
    requires n > 0.0
  {
    Times(z, root) / Denominator(n, z)
  }

  function Max(a: real, b: real): real {
    if a >= b then a else b
  }

  function Min(a: real, b: real): real {
    if a <= b then a else b
  }

  function Proportion(successes: int, total: int): real
    requires total >= 1
  {
    successes as real / total as real
  }

  /** `root` is the square root that the source takes. */
  predicate IsRoot(root: real, successes: int, total: int) {
    total >= 1 && root >= 0.0 && Square(root) == Radicand(Proportion(successes, total), total as real, Z95)
  }

  function WilsonInterval(successes: int, total: int, root: real): Interval {
    if total < 1 then Interval(0, 0.0, 0.0)
    else
      var p, n := Proportion(successes, total), total as real;
      Interval(total, Max(0.0, Center(p, n, Z95) - Margin(root, n, Z95)), Min(1.0, Center(p, n, Z95) + Margin(root, n, Z95)))
  }

  /** The score test, at the level whose squared z value is `w`, does not reject proportion `x` after p was observed in n trials. */
  predicate Plausible(x: real, p: real, n: real, w: real) {
    Times(n, Square(p - x)) <= Times(w, Times(x, 1.0 - x))
  }

  // ---------------------------------------------------------------- products

  lemma SquarePositive(a: real)
    requires a != 0.0
    ensures Square(a) > 0.0
  {
    hide Square;
    if a > 0.0 {
      PositiveSquare(a);
    } else {
      PositiveSquare(-a);
      SquareOfNegative(a);
    }
  }

  lemma PositiveSquare(a: real)
    requires a > 0.0
    ensures Square(a) > 0.0
  {
    hide Times, Square;
    Positive(a, a);
    SquareIs(a);
  }

  lemma SquareIs(a: real)
    ensures Square(a) == Times(a, a)
  {
  }

  lemma SquareNotNegative(a: real)
    ensures Square(a) >= 0.0
  {
  }

  lemma SquareOver(z: real, n: real)
    requires n > 0.0
    ensures Square(z) / n >= 0.0
  {
    SquareNotNegative(z);
    QuotientNotNegative(Square(z), n);
  }

  lemma QuotientNotNegative(a: real, n: real)
    requires a >= 0.0 && n > 0.0
    ensures a / n >= 0.0
  {
    hide Times;
    Cancel(a, n);
    ScaledOrder(n, 0.0, a / n);
    TimesZero(n);
  }

  lemma Positive(a: real, b: real)
    requires a > 0.0 && b > 0.0
    ensures Times(a, b) > 0.0
  {
  }

  lemma NotNegative(a: real, b: real)
    requires a >= 0.0 && b >= 0.0
    ensures Times(a, b) >= 0.0
  {
  }

  lemma Distribute(a: real, x: real, y: real)
    ensures Times(a, x + y) == Times(a, x) + Times(a, y) && Times(a, x - y) == Times(a, x) - Times(a, y)
  {
  }

  lemma Difference(y: real, m: real)
    ensures Times(y - m, y + m) == Square(y) - Square(m)
  {
  }

  /** A positive factor keeps the order. */
  lemma ScaledOrder(a: real, x: real, y: real)
    requires a > 0.0
    ensures x <= y <==> Times(a, x) <= Times(a, y)
    ensures x == y <==> Times(a, x) == Times(a, y)
  {
    hide Times;
    Distribute(a, y, x);
    Distribute(a, x, y);
    if x < y { Positive(a, y - x); }
    if y < x { Positive(a, x - y); }
  }

  lemma SquareAbove(y: real, m: real)
    requires m >= 0.0 && y > m
    ensures Square(y) > Square(m)
  {
    hide Times, Square;
    Positive(y - m, y + m);
    Difference(y, m);
  }

  lemma SquareOfNegative(y: real)
    ensures Square(-y) == Square(y)
  {
  }

  lemma SquareAtMost(y: real, m: real)
    requires m >= 0.0
    ensures Square(y) <= Square(m) <==> -m <= y <= m
  {
    hide Times, Square;
    if y > m {
      SquareAbove(y, m);
    } else if y < -m {
      SquareAbove(-y, m);
      SquareOfNegative(y);
    } else {
      NotNegative(m - y, m + y);
      Difference(m, y);
    }
  }

  lemma Cancel(c: real, d: real)
    requires d > 0.0
    ensures Times(d, c / d) == c
  {
  }

  lemma Regroup(a: real, b: real, c: real)
    ensures Times(Times(a, b), c) == Times(a, Times(b, c))
  {
  }

  // ---------------------------------------------------------------- the interval, scaled

  lemma DenominatorScaled(n: real, z: real)
    requires n > 0.0
    ensures Times(n, Denominator(n, z)) == n + Square(z)
  {
    hide Times, Square;
    Distribute(n, 1.0, Square(z) / n);
    Cancel(Square(z), n);
    TimesOne(n);
  }

  lemma TimesOne(a: real)
    ensures Times(a, 1.0) == a
  {
  }

  lemma HalfTerm(w: real, n: real)
    requires n > 0.0
    ensures Times(n, w / (2.0 * n)) == w / 2.0
  {
  }

  lemma QuarterTerm(w: real, k: real)
    requires k > 0.0
    ensures Times(k, w / (4.0 * k)) == w / 4.0
  {
  }

  lemma CenterScaled(p: real, n: real, z: real)
    requires n > 0.0
    ensures Times(n + Square(z), Center(p, n, z)) == Times(n, p) + Square(z) / 2.0
  {
    hide Times, Square, Denominator;
    var d, c := Denominator(n, z), p + Square(z) / (2.0 * n);
    DenominatorScaled(n, z);
    Regroup(n, d, c / d);
    Cancel(c, d);
    Distribute(n, p, Square(z) / (2.0 * n));
    HalfTerm(Square(z), n);
  }

  lemma MarginScaled(root: real, n: real, z: real)
    requires n > 0.0
    ensures Times(n + Square(z), Margin(root, n, z)) == Times(n, Times(z, root))
  {
    hide Times, Square, Denominator;
    var d, c := Denominator(n, z), Times(z, root);
    DenominatorScaled(n, z);
    Regroup(n, d, c / d);
    Cancel(c, d);
  }

  lemma SquareOfProduct(a: real, b: real)
    ensures Square(Times(a, b)) == Times(Square(a), Square(b))
  {
  }

  lemma RadicandScaled(p: real, n: real, z: real)
    requires n > 0.0
    ensures Times(Square(n), Radicand(p, n, z)) == n * (p * (1.0 - p)) + Square(z) / 4.0
  {
    hide Times, Square;
    SquarePositive(n);
    var v := p * (1.0 - p);
    Distribute(Square(n), v / n, Square(z) / (4.0 * Square(n)));
    QuarterTerm(Square(z), Square(n));
    OneFactor(n, v);
    TimesIs(n, p * (1.0 - p));
  }

  lemma TimesIs(a: real, b: real)
    ensures Times(a, b) == a * b
  {
  }

  lemma OneFactor(n: real, v: real)
    requires n > 0.0
    ensures Times(Square(n), v / n) == Times(n, v)
  {
    var q := v / n;
    assert q * n == v;
  }

  /** The squared half-width of the scaled interval. */
  predicate HalfWidth(p: real, n: real, w: real, m: real) {
    m >= 0.0 && Square(m) == w * (n * (p * (1.0 - p)) + w / 4.0)
  }

  lemma MarginIsHalfWidth(p: real, n: real, z: real, root: real)
    requires n > 0.0 && z > 0.0 && root >= 0.0 && Square(root) == Radicand(p, n, z)
    ensures HalfWidth(p, n, Square(z), Times(n + Square(z), Margin(root, n, z)))
  {
    hide Times, Square, Radicand, Margin;
    var m := Times(n, Times(z, root));
    MarginScaled(root, n, z);
    NotNegative(z, root);
    NotNegative(n, Times(z, root));
    SquareOfProduct(n, Times(z, root));
    SquareOfProduct(z, root);
    Swap(Square(n), Square(z), Square(root));
    RadicandScaled(p, n, z);
    TimesIs(Square(z), n * (p * (1.0 - p)) + Square(z) / 4.0);
  }

  lemma Swap(a: real, b: real, c: real)
    ensures Times(a, Times(b, c)) == Times(b, Times(a, c))
  {
  }

  /** Completing the square in the score test. */
  lemma Completed(x: real, p: real, n: real, w: real)
    ensures Square((n + w) * x - (n * p + w / 2.0)) - w * (n * (p * (1.0 - p)) + w / 4.0)
            == Times(n + w, n * ((p - x) * (p - x)) - w * (x * (1.0 - x)))
  {
  }

  lemma PlausibleIs(x: real, p: real, n: real, w: real)
    ensures Plausible(x, p, n, w) <==> n * ((p - x) * (p - x)) - w * (x * (1.0 - x)) <= 0.0
  {
  }

  /** The score test in terms of the scaled distance `y` from the centre and the half-width `m`. */
  predicate Distance(x: real, p: real, n: real, w: real, y: real) {
    y == (n + w) * x - (n * p + w / 2.0)
  }

  lemma SignOfProduct(a: real, b: real)
    requires a > 0.0
    ensures Times(a, b) <= 0.0 <==> b <= 0.0
  {
  }

  lemma TestIsDistance(x: real, p: real, n: real, w: real, y: real, m: real)
    requires n > 0.0 && w > 0.0 && Distance(x, p, n, w, y) && HalfWidth(p, n, w, m)
    ensures Plausible(x, p, n, w) <==> -m <= y <= m
  {
    hide Times, Square, Plausible;
    Completed(x, p, n, w);
    SquareAtMost(y, m);
    SignOfProduct(n + w, n * ((p - x) * (p - x)) - w * (x * (1.0 - x)));
    PlausibleIs(x, p, n, w);
  }

  lemma DistanceFromCenter(x: real, p: real, n: real, w: real, center: real)
    requires Times(n + w, center) == Times(n, p) + w / 2.0
    ensures Distance(x, p, n, w, Times(n + w, x - center))
  {
  }

  lemma ScaledBounds(a: real, x: real, center: real, margin: real)
    requires a > 0.0
    ensures center - margin <= x <= center + margin <==> -Times(a, margin) <= Times(a, x - center) <= Times(a, margin)
  {
    hide Times;
    ScaledOrder(a, x - center, margin);
    ScaledOrder(a, -margin, x - center);
    Distribute(a, 0.0, margin);
    TimesZero(a);
    assert 0.0 - margin == -margin;
  }

  lemma TimesZero(a: real)
    ensures Times(a, 0.0) == 0.0
  {
  }

  // ---------------------------------------------------------------- theorems

  /**
   The unclamped interval is exactly the set of proportions the score test does not reject,
   for every level, count and observed proportion.
   */
  lemma {:induction false} IntervalIsScoreTest(x: real, p: real, n: real, z: real, root: real)
    requires n > 0.0 && z > 0.0 && root >= 0.0 && Square(root) == Radicand(p, n, z)
    ensures Plausible(x, p, n, Square(z)) <==> Center(p, n, z) - Margin(root, n, z) <= x <= Center(p, n, z) + Margin(root, n, z)
  {
    hide Times, Square, Radicand, Center, Margin, Plausible, Distance, HalfWidth;
    var w, center, margin := Square(z), Center(p, n, z), Margin(root, n, z);
    SquarePositive(z);
    CenterScaled(p, n, z);
    DistanceFromCenter(x, p, n, w, center);
    MarginIsHalfWidth(p, n, z, root);
    TestIsDistance(x, p, n, w, Times(n + w, x - center), Times(n + w, margin));
    ScaledBounds(n + w, x, center, margin);
  }

  lemma UnitFromProduct(x: real)
    requires Times(x, 1.0 - x) >= 0.0
    ensures 0.0 <= x <= 1.0
  {
  }

  lemma ProductAtLeast(n: real, square: real, w: real, t: real)
    requires n > 0.0 && w > 0.0 && square >= 0.0 && Times(n, square) <= Times(w, t)
    ensures t >= 0.0 && (t == 0.0 ==> square == 0.0)
  {
    hide Times;
    NotNegative(n, square);
    TimesZero(w);
    ScaledOrder(w, 0.0, t);
    if square > 0.0 { Positive(n, square); }
  }

  lemma NoSquare(a: real)
    requires Square(a) == 0.0
    ensures a == 0.0
  {
    hide Square;
    if a != 0.0 { SquarePositive(a); }
  }

  lemma UnfoldPlausible(x: real, p: real, n: real, w: real)
    requires Plausible(x, p, n, w) && n > 0.0 && w > 0.0
    ensures Times(x, 1.0 - x) >= 0.0
    ensures Times(x, 1.0 - x) == 0.0 ==> Square(p - x) == 0.0
  {
    hide Times, Square;
    SquareNotNegative(p - x);
    ProductAtLeast(n, Square(p - x), w, Times(x, 1.0 - x));
  }

  /** Only proportions between 0 and 1 are plausible, and 0 and 1 only when nothing else was observed. */
  lemma PlausibleIsProportion(x: real, p: real, n: real, w: real)
    requires n > 0.0 && w > 0.0 && Plausible(x, p, n, w)
    ensures 0.0 <= x <= 1.0
    ensures x == 0.0 || x == 1.0 ==> p == x
  {
    hide Square, Plausible;
    UnfoldPlausible(x, p, n, w);
    UnitFromProduct(x);
    if Square(p - x) == 0.0 { NoSquare(p - x); }
  }

  lemma OwnProportion(p: real, n: real, w: real)
    requires 0.0 <= p <= 1.0 && w > 0.0
    ensures Plausible(p, p, n, w)
  {
    hide Times, Square;
    NotNegative(p, 1.0 - p);
    NotNegative(w, Times(p, 1.0 - p));
    TimesZero(n);
    SquareOfZero();
    assert p - p == 0.0;
  }

  lemma SquareOfZero()
    ensures Square(0.0) == 0.0
  {
  }

  lemma ProportionIn(successes: int, total: int)
    requires 0 <= successes <= total && total >= 1
    ensures 0.0 <= Proportion(successes, total) <= 1.0
    ensures Proportion(successes, total) == 0.0 <==> successes == 0
    ensures Proportion(successes, total) == 1.0 <==> successes == total
  {
    hide Times;
    var n, q := total as real, Proportion(successes, total);
    Cancel(successes as real, n);
    ScaledOrder(n, q, 1.0);
    ScaledOrder(n, 0.0, q);
    TimesOne(n);
    TimesZero(n);
  }

  /**
   Without the clamps the bounds already satisfy 0 <= lower <= p <= upper <= 1, and they
   touch 0 and 1 exactly when no trial or every trial succeeded.
   */
  lemma {:induction false} BoundsNeedNoClamps(successes: int, total: int, root: real)
    requires 0 <= successes <= total && IsRoot(root, successes, total)
    ensures var p, n := Proportion(successes, total), total as real;
            var lower, upper := Center(p, n, Z95) - Margin(root, n, Z95), Center(p, n, Z95) + Margin(root, n, Z95);
            && WilsonInterval(successes, total, root) == Interval(total, lower, upper)
            && 0.0 <= lower <= p <= upper <= 1.0
            && (lower == 0.0 <==> successes == 0)
            && (upper == 1.0 <==> successes == total)
  {
    hide Square, Radicand, Center, Margin, Plausible, Proportion;
    var p, n, w := Proportion(successes, total), total as real, Square(Z95);
    var lower, upper := Center(p, n, Z95) - Margin(root, n, Z95), Center(p, n, Z95) + Margin(root, n, Z95);
    SquarePositive(Z95);
    ProportionIn(successes, total);
    OwnProportion(p, n, w);
    IntervalIsScoreTest(p, p, n, Z95, root);
    IntervalIsScoreTest(lower, p, n, Z95, root);
    IntervalIsScoreTest(upper, p, n, Z95, root);
    PlausibleIsProportion(lower, p, n, w);
    PlausibleIsProportion(upper, p, n, w);
  }

  /** The published interval covers exactly the plausible proportions. */
  lemma {:induction false} IntervalCoversPlausible(successes: int, total: int, root: real, x: real)
    requires 0 <= successes <= total && IsRoot(root, successes, total)
    ensures var i := WilsonInterval(successes, total, root);
            i.lower <= x <= i.upper <==> Plausible(x, Proportion(successes, total), total as real, Square(Z95))
  {
    hide Square, Radicand, Center, Margin, Plausible, Proportion, WilsonInterval;
    BoundsNeedNoClamps(successes, total, root);
    IntervalIsScoreTest(x, Proportion(successes, total), total as real, Z95, root);
  }

  lemma OtherProportion(successes: int, total: int)
    requires total >= 1
    ensures Proportion(total - successes, total) == 1.0 - Proportion(successes, total)
  {
    hide Times;
    var n, p := total as real, Proportion(successes, total);
    Cancel(successes as real, n);
    Cancel((total - successes) as real, n);
    Distribute(n, 1.0, p);
    TimesOne(n);
    ScaledOrder(n, Proportion(total - successes, total), 1.0 - p);
  }

  lemma CenterMirrors(p: real, n: real, z: real)
    requires n > 0.0
    ensures Center(1.0 - p, n, z) == 1.0 - Center(p, n, z)
  {
    hide Center, Times, Square;
    var a := n + Square(z);
    SquareNotNegative(z);
    CenterScaled(p, n, z);
    CenterScaled(1.0 - p, n, z);
    Distribute(n, 1.0, p);
    Distribute(a, 1.0, Center(p, n, z));
    TimesOne(n);
    TimesOne(a);
    ScaledOrder(a, Center(1.0 - p, n, z), 1.0 - Center(p, n, z));
  }

  lemma RadicandMirrors(p: real, n: real, z: real)
    requires n > 0.0
    ensures Radicand(1.0 - p, n, z) == Radicand(p, n, z)
  {
    assert (1.0 - p) * (1.0 - (1.0 - p)) == p * (1.0 - p);
  }

  /** Swapping successes and failures mirrors the interval about one half. */
  lemma {:induction false} SwapReflects(successes: int, total: int, root: real)
    requires 0 <= successes <= total && IsRoot(root, successes, total)
    ensures IsRoot(root, total - successes, total)
    ensures var i, j := WilsonInterval(successes, total, root), WilsonInterval(total - successes, total, root);
            j.lower == 1.0 - i.upper && j.upper == 1.0 - i.lower
  {
    hide Center, Margin, Radicand, Square, Proportion, WilsonInterval;
    var p, n := Proportion(successes, total), total as real;
    OtherProportion(successes, total);
    RadicandMirrors(p, n, Z95);
    CenterMirrors(p, n, Z95);
    BoundsNeedNoClamps(successes, total, root);
    BoundsNeedNoClamps(total - successes, total, root);
  }
}
