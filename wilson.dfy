/**
 * The `score` column of the ranking queries: the lower bound of the Wilson
 * score interval (z = 1.96) for the proportion `wins / games`, times 100,
 * as the SQL expression computes it. `wins * losses / games` divides integer
 * aggregates, which PostgreSQL truncates; everything else is numeric.
 *
 * There is no square root over `real` here: each lemma takes the root's
 * value as a parameter together with `IsRoot`, its defining property.
 */
module Wilson {

  /** z² / 2, z² / 4 and z² for z = 1.96. */
  const HalfZSquared: real := 1.9208
  const QuarterZSquared: real := 0.9604
  const ZSquared: real := 3.8416
  const Z: real := 1.96

  /** `root` is the non-negative square root of `x`. */
  predicate IsRoot(root: real, x: real) {
    root >= 0.0 && root * root == x
  }

  /** The argument of `SQRT`: `SUM(win) * SUM(loss) / COUNT(*)` on integers, plus z²/4. */
  function RootArg(wins: nat, losses: nat): (x: real)
    requires wins + losses >= 1
    ensures x >= QuarterZSquared
  {
    ((wins * losses) / (wins + losses)) as real + QuarterZSquared
  }

  /** The score expression, given the value of its square root. */
  function ScoreWith(wins: nat, losses: nat, root: real): real
    requires wins + losses >= 1
  {
    var n := (wins + losses) as real;
    ((wins as real + HalfZSquared) / n - Z * root / n) / (1.0 + ZSquared / n) * 100.0
  }

  // ---------------------------------------------------------------------------
  // Arithmetic helpers
  // ---------------------------------------------------------------------------

  lemma NegativeFactor(x: int, n: int)
    requires n > 0 && x * n < 0
    ensures x < 0
  {
  }

  lemma NonPositiveFactor(x: int, n: int)
    requires n > 0 && x * n <= 0
    ensures x <= 0
  {
  }

  /** Adding at most `n` to a dividend raises its quotient by `n` at most one. */
  lemma DivStepAtMostOne(a: int, b: int, n: int)
    requires 0 <= a && 0 <= b <= a + n && n > 0
    ensures b / n <= a / n + 1
  {
    var qa, qb := a / n, b / n;
    assert a == qa * n + a % n;
    assert b == qb * n + b % n;
    assert (qb - qa - 2) * n == qb * n - qa * n - 2 * n;
    NegativeFactor(qb - qa - 2, n);
  }

  lemma NonNegativeFactor(x: real, y: real)
    requires y > 0.0 && x * y >= 0.0
    ensures x >= 0.0
  {
  }

  lemma PositiveFactor(x: real, y: real)
    requires y > 0.0 && x * y > 0.0
    ensures x > 0.0
  {
  }

  lemma MulLeRight(a: real, b: real, x: real)
    requires a <= b && x >= 0.0
    ensures a * x <= b * x
  {
    assert (b - a) * x >= 0.0;
    assert (b - a) * x == b * x - a * x;
  }

  lemma MulLtRight(a: real, b: real, x: real)
    requires a < b && x > 0.0
    ensures a * x < b * x
  {
    assert (b - a) * x > 0.0;
    assert (b - a) * x == b * x - a * x;
  }

  /** Comparing non-negative reals through their squares. */
  lemma SquareBack(a: real, b: real)
    requires 0.0 <= a && 0.0 <= b && a * a <= b * b
    ensures a <= b
  {
    assert b * b - a * a == (b - a) * (b + a);
    if b + a > 0.0 {
      NonNegativeFactor(b - a, b + a);
    }
  }

  lemma SquareBackStrict(a: real, b: real)
    requires 0.0 <= a && 0.0 <= b && a * a < b * b
    ensures a < b
  {
    assert b * b - a * a == (b - a) * (b + a);
    assert b != 0.0;
    PositiveFactor(b - a, b + a);
  }

  lemma FractionLt(a: real, b: real, c: real, d: real)
    requires c > 0.0 && d > 0.0 && a * d < b * c
    ensures a / c < b / d
  {
    assert a / c == (a * d) / (c * d);
    assert b / d == (b * c) / (c * d);
  }

  /** The expression as a single fraction over `games + z²`. */
  lemma ScoreSimplified(wins: nat, losses: nat, root: real)
    requires wins + losses >= 1
    ensures ScoreWith(wins, losses, root) ==
      100.0 * (wins as real + HalfZSquared - Z * root) / ((wins + losses) as real + ZSquared)
  {
    var n := (wins + losses) as real;
    var a := wins as real + HalfZSquared - Z * root;
    assert (wins as real + HalfZSquared) / n - Z * root / n == a / n;
    assert 1.0 + ZSquared / n == (n + ZSquared) / n;
    assert (a / n) / ((n + ZSquared) / n) == a / (n + ZSquared);
  }

  lemma PercentBounds(num: real, den: real)
    requires 0.0 <= num < den
    ensures 0.0 <= 100.0 * num / den < 100.0
    ensures 100.0 * num / den == 0.0 <==> num == 0.0
  {
    FractionLt(100.0 * num, 100.0, den, 1.0);
  }

  // ---------------------------------------------------------------------------
  // What the score promises
  // ---------------------------------------------------------------------------

  /** The truncated quotient never exceeds the wins. */
  lemma TruncatedTermAtMostWins(wins: nat, losses: nat)
    requires wins + losses >= 1
    ensures (wins * losses) / (wins + losses) <= wins
  {
    var n := wins + losses;
    var q := (wins * losses) / n;
    assert q * n <= wins * losses;
    assert wins * losses <= wins * n by { assert wins * n - wins * losses == wins * wins; }
    assert (q - wins) * n == q * n - wins * n;
    NonPositiveFactor(q - wins, n);
  }

  /** The root is at least z/2, since its square is at least z²/4. */
  lemma RootAtLeastHalfZ(wins: nat, losses: nat, root: real)
    requires wins + losses >= 1 && IsRoot(root, RootArg(wins, losses))
    ensures root >= 0.98
  {
    assert 0.98 * 0.98 == QuarterZSquared;
    SquareBack(0.98, root);
  }

  /** z·root against wins + z²/2, compared through their squares. */
  lemma RootTermAtMostHalfPlusWins(wins: nat, losses: nat, root: real)
    requires wins + losses >= 1 && IsRoot(root, RootArg(wins, losses))
    ensures Z * root <= wins as real + HalfZSquared
    ensures wins == 0 <==> Z * root == wins as real + HalfZSquared
  {
    var w := wins as real;
    var q := ((wins * losses) / (wins + losses)) as real;
    TruncatedTermAtMostWins(wins, losses);
    var zr := Z * root;
    var h := w + HalfZSquared;
    assert zr * zr == ZSquared * q + ZSquared * QuarterZSquared by {
      assert zr * zr == ZSquared * (root * root);
    }
    assert h * h == w * w + ZSquared * w + ZSquared * QuarterZSquared;
    assert ZSquared * q <= ZSquared * w;
    SquareBack(zr, h);
    if wins == 0 {
      assert (wins * losses) / (wins + losses) == 0;
      SquareBack(h, zr);
    } else {
      assert w * w > 0.0;
      SquareBackStrict(zr, h);
    }
  }

  /**
   * The score lies in [0, 100), and it is 0 exactly for a group without wins.
   * Both divisors are non-zero because every group has a row.
   */
  lemma ScoreBounds(wins: nat, losses: nat, root: real)
    requires wins + losses >= 1 && IsRoot(root, RootArg(wins, losses))
    ensures 0.0 <= ScoreWith(wins, losses, root) < 100.0
    ensures ScoreWith(wins, losses, root) == 0.0 <==> wins == 0
  {
    ScoreSimplified(wins, losses, root);
    RootAtLeastHalfZ(wins, losses, root);
    RootTermAtMostHalfPlusWins(wins, losses, root);
    PercentBounds(wins as real + HalfZSquared - Z * root, (wins + losses) as real + ZSquared);
  }

  lemma RootsDifferByLessThanOneOverZ(r0: real, r1: real)
    requires r0 >= 0.98 && r1 > 0.98
    requires r1 * r1 == r0 * r0 + 1.0
    ensures Z * (r1 - r0) < 1.0
  {
    var d, t := r1 - r0, r1 + r0;
    assert d * t == r1 * r1 - r0 * r0;
    assert d * t > 0.0;
    PositiveFactor(d, t);
    MulLtRight(Z, t, d);
  }

  /** One more win out of the same games moves z·root up by less than one. */
  lemma RootStep(wins: nat, losses: nat, r0: real, r1: real)
    requires losses >= 1
    requires IsRoot(r0, RootArg(wins, losses)) && IsRoot(r1, RootArg(wins + 1, losses - 1))
    ensures Z * r1 - Z * r0 < 1.0
  {
    var n := wins + losses;
    var q0 := (wins * losses) / n;
    var q1 := ((wins + 1) * (losses - 1)) / n;
    assert (wins + 1) * (losses - 1) == wins * losses + losses - wins - 1;
    DivStepAtMostOne(wins * losses, (wins + 1) * (losses - 1), n);
    RootAtLeastHalfZ(wins, losses, r0);
    if q1 <= q0 {
      assert r1 * r1 <= r0 * r0;
      SquareBack(r1, r0);
    } else {
      assert r1 * r1 == r0 * r0 + 1.0;
      assert 0.98 * 0.98 < r1 * r1;
      SquareBackStrict(0.98, r1);
      RootsDifferByLessThanOneOverZ(r0, r1);
    }
  }

  /**
   * For a fixed number of games, turning one loss into a win raises the
   * score: the truncated term grows by at most one, so its root grows by
   * less than 1 / z.
   */
  lemma ScoreIncreasesWithWins(wins: nat, losses: nat, r0: real, r1: real)
    requires losses >= 1
    requires IsRoot(r0, RootArg(wins, losses)) && IsRoot(r1, RootArg(wins + 1, losses - 1))
    ensures ScoreWith(wins, losses, r0) < ScoreWith(wins + 1, losses - 1, r1)
  {
    ScoreSimplified(wins, losses, r0);
    ScoreSimplified(wins + 1, losses - 1, r1);
    RootStep(wins, losses, r0, r1);
    var d := (wins + losses) as real + ZSquared;
    FractionLt(100.0 * (wins as real + HalfZSquared - Z * r0), 100.0 * ((wins + 1) as real + HalfZSquared - Z * r1), d, d);
  }

  /** Without losses the root is z/2 and the score is 100·w/(w + z²). */
  lemma UnbeatenScore(wins: nat, root: real)
    requires wins >= 1 && IsRoot(root, RootArg(wins, 0))
    ensures ScoreWith(wins, 0, root) == 100.0 * (wins as real) / (wins as real + ZSquared)
  {
    ScoreSimplified(wins, 0, root);
    assert (wins * 0) / wins == 0;
    assert root * root == 0.98 * 0.98;
    SquareBack(root, 0.98);
    SquareBack(0.98, root);
  }

  /** A longer unbeaten run ranks higher, though every unbeaten proportion is 1. */
  lemma LongerUnbeatenRunScoresHigher(wins: nat, r0: real, r1: real)
    requires wins >= 1 && IsRoot(r0, RootArg(wins, 0)) && IsRoot(r1, RootArg(wins + 1, 0))
    ensures ScoreWith(wins, 0, r0) < ScoreWith(wins + 1, 0, r1)
  {
    UnbeatenScore(wins, r0);
    UnbeatenScore(wins + 1, r1);
    var w := wins as real;
    FractionLt(100.0 * w, 100.0 * (w + 1.0), w + ZSquared, w + 1.0 + ZSquared);
  }

  /** The truncated quotient is at most the exact one, and equal to it when the division is exact. */
  lemma TruncatedAtMostExact(wins: nat, losses: nat)
    requires wins + losses >= 1
    ensures ((wins * losses) / (wins + losses)) as real <= (wins * losses) as real / (wins + losses) as real
    ensures (wins * losses) % (wins + losses) == 0 ==>
      ((wins * losses) / (wins + losses)) as real == (wins * losses) as real / (wins + losses) as real
  {
    var n := wins + losses;
    var p := wins * losses;
    var q := p / n;
    assert q * n + p % n == p;
    assert (q as real) * (n as real) <= p as real;
    assert (q as real) == ((q as real) * (n as real)) / (n as real);
  }

  /**
   * Truncating `wins * losses / games` shrinks the root, so the computed
   * score is never below the exact Wilson bound, and equals it when the
   * division is exact.
   */
  lemma TruncationNeverLowersScore(wins: nat, losses: nat, truncated: real, exact: real)
    requires wins + losses >= 1
    requires IsRoot(truncated, RootArg(wins, losses))
    requires IsRoot(exact, (wins * losses) as real / (wins + losses) as real + QuarterZSquared)
    ensures ScoreWith(wins, losses, exact) <= ScoreWith(wins, losses, truncated)
    ensures (wins * losses) % (wins + losses) == 0 ==> ScoreWith(wins, losses, exact) == ScoreWith(wins, losses, truncated)
  {
    ScoreSimplified(wins, losses, truncated);
    ScoreSimplified(wins, losses, exact);
    TruncatedAtMostExact(wins, losses);
    SquareBack(truncated, exact);
    if (wins * losses) % (wins + losses) == 0 {
      SquareBack(exact, truncated);
    }
    var d := (wins + losses) as real + ZSquared;
    var nt := wins as real + HalfZSquared - Z * truncated;
    var ne := wins as real + HalfZSquared - Z * exact;
    MulLeRight(ne, nt, 100.0 / d);
    assert 100.0 * ne / d == ne * (100.0 / d);
    assert 100.0 * nt / d == nt * (100.0 / d);
  }
}
